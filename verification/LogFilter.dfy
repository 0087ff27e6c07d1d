/** Which log lines a level and a keyword select. */
module LogFilter {
  import opened Basics

  /** The level of a request, trimmed and in upper case, and its keyword, as UTF-8. */
  datatype Filter = Filter(level: Bytes, query: Bytes) {
    predicate Active() { query != [] || (level != [] && level != ALL) }

    predicate Matches(line: Bytes) { LevelMatches(line, level) && Contains(line, query) }
  }

  const ALL: Bytes := [0x41, 0x4c, 0x4c]
  const ERROR: Bytes := [0x45, 0x52, 0x52, 0x4f, 0x52]
  const WARN: Bytes := [0x57, 0x41, 0x52, 0x4e]
  const INFO: Bytes := [0x49, 0x4e, 0x46, 0x4f]
  const DEBUG: Bytes := [0x44, 0x45, 0x42, 0x55, 0x47]
  const TRACE: Bytes := [0x54, 0x52, 0x41, 0x43, 0x45]
  const MAX_QUERY: nat := 4096

  /** A blank and an opening bracket, and a closing one. */
  const OPENING: Bytes := [0x20, 0x5b]
  const CLOSING: Bytes := [0x5d]

  /** A request that is not refused for its filter. */
  predicate Permitted(f: Filter) {
    |f.query| <= MAX_QUERY && f.level in [[], ALL, ERROR, WARN, INFO, DEBUG, TRACE]
  }

  /** A text of ASCII characters as bytes. */
  function Ascii(s: string): Bytes
    requires forall i :: 0 <= i < |s| ==> s[i] as int < 128
  {
    seq(|s|, i requires 0 <= i < |s| => s[i] as int)
  }

  /** The levels a request may name, and the longest keyword. */
  lemma PermittedExactly(f: Filter)
    ensures Permitted(f) <==>
      |f.query| <= 4096
      && f.level in {Ascii(""), Ascii("ALL"), Ascii("ERROR"), Ascii("WARN"), Ascii("INFO"), Ascii("DEBUG"), Ascii("TRACE")}
    ensures OPENING == Ascii(" [") && CLOSING == Ascii("]")
  {
    assert ALL == Ascii("ALL") && ERROR == Ascii("ERROR") && WARN == Ascii("WARN") && INFO == Ascii("INFO");
    assert DEBUG == Ascii("DEBUG") && TRACE == Ascii("TRACE") && Ascii("") == [];
  }

  // ------------------------------------------------------------------------- searching

  predicate StandsAt(text: Bytes, i: nat, piece: Bytes) {
    i + |piece| <= |text| && text[i..i + |piece|] == piece
  }

  /** The first place from `from` on. */
  ghost predicate FirstAt(text: Bytes, piece: Bytes, from: nat, i: nat) {
    from <= i && StandsAt(text, i, piece) && forall k: nat :: from <= k < i ==> !StandsAt(text, k, piece)
  }

  function Find(text: Bytes, piece: Bytes, from: nat): (r: Option<nat>)
    ensures r.Some? ==> FirstAt(text, piece, from, r.value)
    ensures r.None? ==> forall k: nat :: from <= k ==> !StandsAt(text, k, piece)
    decreases |text| - from
  {
    if from + |piece| > |text| then None
    else if StandsAt(text, from, piece) then Some(from)
    else if from == |text| then None
    else Find(text, piece, from + 1)
  }

  predicate Contains(text: Bytes, piece: Bytes) { Find(text, piece, 0).Some? }

  // -------------------------------------------------------------------------- trimming

  /** The encoding of one white-space character of Unicode. */
  predicate Blank(c: Bytes) {
    || (|c| == 1 && (0x09 <= c[0] <= 0x0d || c[0] == 0x20))
    || (|c| == 2 && c[0] == 0xc2 && (c[1] == 0x85 || c[1] == 0xa0))
    || (|c| == 3 && c[0] == 0xe1 && c[1] == 0x9a && c[2] == 0x80)
    || (|c| == 3 && c[0] == 0xe2 && c[1] == 0x80 && (0x80 <= c[2] <= 0x8a || c[2] == 0xa8 || c[2] == 0xa9 || c[2] == 0xaf))
    || (|c| == 3 && c[0] == 0xe2 && c[1] == 0x81 && c[2] == 0x9f)
    || (|c| == 3 && c[0] == 0xe3 && c[1] == 0x80 && c[2] == 0x80)
  }

  /** Width of the white space at the front, 0 when there is none. */
  function Leading(t: Bytes): (w: nat)
    ensures w <= |t| && (w > 0 ==> Blank(t[..w]))
  {
    if |t| >= 1 && Blank(t[..1]) then 1
    else if |t| >= 2 && Blank(t[..2]) then 2
    else if |t| >= 3 && Blank(t[..3]) then 3
    else 0
  }

  function Trailing(t: Bytes): (w: nat)
    ensures w <= |t| && (w > 0 ==> Blank(t[|t| - w..]))
  {
    if |t| >= 1 && Blank(t[|t| - 1..]) then 1
    else if |t| >= 2 && Blank(t[|t| - 2..]) then 2
    else if |t| >= 3 && Blank(t[|t| - 3..]) then 3
    else 0
  }

  function TrimStart(t: Bytes): Bytes
    decreases |t|
  {
    if Leading(t) == 0 then t else TrimStart(t[Leading(t)..])
  }

  function TrimEnd(t: Bytes): Bytes
    decreases |t|
  {
    if Trailing(t) == 0 then t else TrimEnd(t[..|t| - Trailing(t)])
  }

  function Trim(t: Bytes): Bytes { TrimEnd(TrimStart(t)) }

  /** White space from end to end. */
  ghost predicate AllBlank(t: Bytes) {
    exists parts: seq<Bytes> :: Concat(parts) == t && forall i :: 0 <= i < |parts| ==> Blank(parts[i])
  }

  /** Without white space at either end. */
  ghost predicate Bare(t: Bytes) {
    forall k :: 0 <= k <= |t| ==> !Blank(t[..k]) && !Blank(t[k..])
  }

  ghost predicate TrimmedTo(t: Bytes, u: Bytes) {
    Bare(u) && exists i, j :: 0 <= i <= j <= |t| && AllBlank(t[..i]) && t[i..j] == u && AllBlank(t[j..])
  }

  lemma NothingBlank()
    ensures AllBlank([])
  {
    assert Concat([]) == [];
  }

  /** One more white-space character at the end. */
  lemma BlankAfter(t: Bytes, c: Bytes)
    requires AllBlank(t) && Blank(c)
    ensures AllBlank(t + c)
  {
    var parts: seq<Bytes> :| Concat(parts) == t && forall i :: 0 <= i < |parts| ==> Blank(parts[i]);
    assert (parts + [c])[..|parts|] == parts;
    assert Concat(parts + [c]) == t + c;
  }

  lemma BlankBefore(c: Bytes, t: Bytes)
    requires AllBlank(t) && Blank(c)
    ensures AllBlank(c + t)
  {
    hide Blank;
    var parts: seq<Bytes> :| Concat(parts) == t && forall i :: 0 <= i < |parts| ==> Blank(parts[i]);
    ConcatFront(c, parts);
    hide Concat;
    assert forall i :: 0 <= i < |[c] + parts| ==> Blank(([c] + parts)[i]);
  }

  /** White space that is not empty begins and ends with a white-space character. */
  lemma BlankEnds(t: Bytes)
    requires AllBlank(t) && t != []
    ensures Leading(t) > 0 && AllBlank(t[Leading(t)..])
    ensures Trailing(t) > 0 && AllBlank(t[..|t| - Trailing(t)])
  {
    var parts: seq<Bytes> :| Concat(parts) == t && forall i :: 0 <= i < |parts| ==> Blank(parts[i]);
    var n := |parts| - 1;
    var last, init := parts[n], Concat(parts[..n]);
    assert t == init + last && t[|init|..] == last && t[..|init|] == init;
    OneTrailing(t, |last|);
    assert parts == [parts[0]] + parts[1..];
    ConcatFront(parts[0], parts[1..]);
    var first, rest := parts[0], Concat(parts[1..]);
    assert t == first + rest && t[..|first|] == first && t[|first|..] == rest;
    OneLeading(t, |first|);
  }

  /** A white-space character's width shows in its first byte, and in its last two. */
  lemma BlankWidth(c: Bytes)
    requires Blank(c)
    ensures 1 <= |c| <= 3
    ensures |c| == if c[0] < 0x80 then 1 else if c[0] == 0xc2 then 2 else 3
    ensures |c| == if c[|c| - 1] < 0x80 then 1 else if c[|c| - 2] == 0xc2 then 2 else 3
    ensures |c| >= 2 ==> c[0] >= 0xc2 && 0x80 <= c[1] < 0xc0
  {
  }

  /** So there is one way to read white space from the front, and one from the back. */
  lemma OneLeading(t: Bytes, w: nat)
    requires w <= |t| && Blank(t[..w])
    ensures Leading(t) == w > 0
  {
    hide Blank;
    BlankWidth(t[..w]);
    assert t[..w][0] == t[0];
    var v := Leading(t);
    if v > 0 {
      BlankWidth(t[..v]);
      assert t[..v][0] == t[0];
    }
  }

  lemma OneTrailing(t: Bytes, w: nat)
    requires w <= |t| && Blank(t[|t| - w..])
    ensures Trailing(t) == w > 0
  {
    hide Blank;
    BlankEnd(t, w);
    var v := Trailing(t);
    if v > 0 { BlankEnd(t, v); }
  }

  lemma BlankEnd(t: Bytes, w: nat)
    requires w <= |t| && Blank(t[|t| - w..])
    ensures 0 < w <= 3 && w == if t[|t| - 1] < 0x80 then 1 else if |t| >= 2 && t[|t| - 2] == 0xc2 then 2 else 3
  {
    hide Blank;
    var n := |t|;
    var b := t[n - w..];
    BlankWidth(b);
    assert b[w - 1] == t[n - 1] && (w >= 2 ==> b[w - 2] == t[n - 2]);
  }

  /** Trimming leaves the bare middle. */
  lemma {:induction false} TrimStartIs(t: Bytes, i: nat)
    requires i <= |t| && AllBlank(t[..i]) && Leading(t[i..]) == 0
    ensures TrimStart(t) == t[i..]
    decreases i
  {
    hide Blank, AllBlank, Leading;
    if i > 0 {
      BlankEnds(t[..i]);
      var w := Leading(t[..i]);
      assert t[..i][..w] == t[..w];
      OneLeading(t, w);
      assert t[..i][w..] == t[w..][..i - w] && t[w..][i - w..] == t[i..];
      TrimStartIs(t[w..], i - w);
    } else {
      assert t[0..] == t;
    }
  }

  lemma {:induction false} TrimEndIs(t: Bytes, j: nat)
    requires j <= |t| && AllBlank(t[j..]) && Trailing(t[..j]) == 0
    ensures TrimEnd(t) == t[..j]
    decreases |t| - j
  {
    hide Blank, AllBlank, Trailing;
    if j < |t| {
      var r := t[j..];
      BlankEnds(r);
      var w := Trailing(r);
      var e := |t| - w;
      assert r[|r| - w..] == t[e..];
      OneTrailing(t, w);
      assert r[..|r| - w] == t[..e][j..] && t[..e][..j] == t[..j];
      TrimEndIs(t[..e], j);
    } else {
      assert t[..j] == t;
    }
  }

  lemma {:induction false} TrimStartSplits(t: Bytes) returns (i: nat)
    ensures i <= |t| && TrimStart(t) == t[i..] && AllBlank(t[..i]) && Leading(t[i..]) == 0
    decreases |t|
  {
    hide Blank, AllBlank, Leading;
    var w := Leading(t);
    if w == 0 {
      i := 0;
      NothingBlank();
      assert t[..0] == [] && t[0..] == t;
    } else {
      var k := TrimStartSplits(t[w..]);
      i := w + k;
      BlankBefore(t[..w], t[w..][..k]);
      assert t[..w] + t[w..][..k] == t[..i] && t[w..][k..] == t[i..];
    }
  }

  lemma {:induction false} TrimEndSplits(t: Bytes) returns (j: nat)
    ensures j <= |t| && TrimEnd(t) == t[..j] && AllBlank(t[j..]) && Trailing(t[..j]) == 0
    decreases |t|
  {
    hide Blank, AllBlank, Trailing;
    var w := Trailing(t);
    if w == 0 {
      j := |t|;
      NothingBlank();
      assert t[..j] == t && t[j..] == [];
    } else {
      var e := |t| - w;
      j := TrimEndSplits(t[..e]);
      BlankAfter(t[..e][j..], t[e..]);
      assert t[..e][j..] + t[e..] == t[j..] && t[..e][..j] == t[..j];
    }
  }

  /** A bare piece in front of white space does not run into it. */
  lemma BareThenBlank(u: Bytes, r: Bytes)
    requires Bare(u) && AllBlank(r) && u != []
    ensures Leading(u + r) == 0
  {
    hide Blank, AllBlank, Leading;
    var t := u + r;
    var w := Leading(t);
    if w > 0 {
      if w <= |u| {
        BarePrefix(u, r, w);
      } else {
        BlankEnds(r);
        RunsOver(u, r, w, Leading(r));
      }
    }
  }

  lemma BarePrefix(u: Bytes, r: Bytes, w: nat)
    requires Bare(u) && w <= |u|
    ensures !Blank((u + r)[..w])
  {
    hide Blank;
    assert (u + r)[..w] == u[..w];
  }

  /** White space never begins with the inside of another character. */
  lemma RunsOver(u: Bytes, r: Bytes, w: nat, v: nat)
    requires 0 < |u| < w <= |u| + |r| && 0 < v <= |r| && Blank(r[..v])
    ensures !Blank((u + r)[..w])
  {
    BlankWidth(r[..v]);
    assert r[..v][0] == r[0];
    var c := (u + r)[..w];
    assert c[|u|] == r[0];
  }

  /** Trimming yields `u` exactly when the text is `u`, bare, between two stretches of white space. */
  lemma {:induction false} TrimMeaning(t: Bytes, u: Bytes)
    ensures Trim(t) == u <==> TrimmedTo(t, u)
  {
    hide Blank, AllBlank, Leading, Trailing;
    if TrimmedTo(t, u) {
      var i, j :| 0 <= i <= j <= |t| && AllBlank(t[..i]) && t[i..j] == u && AllBlank(t[j..]);
      TrimOne(t, i, j, u);
    }
    if Trim(t) == u {
      TrimTwo(t);
    }
  }

  lemma TrimOne(t: Bytes, i: nat, j: nat, u: Bytes)
    requires i <= j <= |t| && AllBlank(t[..i]) && t[i..j] == u && AllBlank(t[j..]) && Bare(u)
    ensures Trim(t) == u
  {
    hide Blank, AllBlank, TrimStart, TrimEnd;
    BareTrailing(u);
    if u == [] {
      var k := TrimStartSplits(t);
      BlankRuns(t, i);
    } else {
      BareThenBlank(u, t[j..]);
      assert t[i..] == u + t[j..];
      TrimStartIs(t, i);
      var s := t[i..];
      assert s[|u|..] == t[j..] && s[..|u|] == u;
      TrimEndIs(s, |u|);
    }
  }

  lemma BareTrailing(u: Bytes)
    requires Bare(u)
    ensures Leading(u) == 0 && Trailing(u) == 0
  {
    hide Blank;
    assert u[..0] == [];
  }

  /** Nothing but white space trims to nothing. */
  lemma BlankRuns(t: Bytes, i: nat)
    requires i <= |t| && AllBlank(t[..i]) && AllBlank(t[i..])
    ensures Trim(t) == []
  {
    hide Blank, AllBlank;
    if i == |t| || t[i..] == [] {
      assert t[..i] == t && t[i..] == [];
      NothingLeads();
      TrimStartIs(t, i);
      assert TrimEnd([]) == [];
    } else {
      JoinBlank(t[..i], t[i..]);
      assert t[..i] + t[i..] == t && t[..|t|] == t && t[|t|..] == [];
      NothingLeads();
      TrimStartIs(t, |t|);
      assert TrimEnd([]) == [];
    }
  }

  lemma NothingLeads()
    ensures Leading([]) == 0 && Trailing([]) == 0
  {
  }

  lemma {:induction false} JoinBlank(a: Bytes, b: Bytes)
    requires AllBlank(a) && AllBlank(b)
    ensures AllBlank(a + b)
    decreases |b|
  {
    hide AllBlank, Blank, Leading;
    if b == [] {
      assert a + b == a;
    } else {
      BlankEnds(b);
      var w := Leading(b);
      BlankAfter(a, b[..w]);
      JoinBlank(a + b[..w], b[w..]);
      assert a + b[..w] + b[w..] == a + b;
    }
  }

  lemma TrimTwo(t: Bytes)
    ensures TrimmedTo(t, Trim(t))
  {
    hide AllBlank, Blank, Leading, Trailing, TrimStart, TrimEnd;
    var i := TrimStartSplits(t);
    var s := t[i..];
    var n := TrimEndSplits(s);
    var u := s[..n];
    assert u == t[i..i + n] && s[n..] == t[i + n..];
    forall k | 0 <= k <= |u| ensures !Blank(u[..k]) && !Blank(u[k..]) {
      assert u[..k] == s[..k];
      if Blank(s[..k]) { OneLeading(s, k); }
      if Blank(u[k..]) {
        assert u[|u| - (|u| - k)..] == u[k..];
        OneTrailing(u, |u| - k);
      }
    }
  }

  // -------------------------------------------------------------------------- matching

  /** The level stands between the first opening bracket after a blank and the next closing one. */
  predicate LevelMatches(text: Bytes, level: Bytes) {
    level == [] || level == ALL ||
    match Find(text, OPENING, 0)
    case None => false
    case Some(s) =>
      match Find(text, CLOSING, s + 2)
      case None => false
      case Some(e) => Trim(text[s + 2..e]) == level
  }

  /** The first bracket after a blank opens at `s`, and the next closing one stands at `e`. */
  ghost predicate Tag(line: Bytes, s: nat, e: nat) {
    FirstAt(line, OPENING, 0, s) && FirstAt(line, CLOSING, s + 2, e)
  }

  /** What a level asks of a line. */
  ghost predicate HasLevel(line: Bytes, level: Bytes) {
    level == [] || level == ALL ||
    exists s: nat, e: nat :: Tag(line, s, e) && TrimmedTo(line[s + 2..e], level)
  }

  /** A line is wanted if it has the level and holds the keyword. */
  ghost predicate Wanted(f: Filter, line: Bytes) {
    HasLevel(line, f.level) && exists i: nat :: StandsAt(line, i, f.query)
  }

  lemma FirstOnce(text: Bytes, piece: Bytes, from: nat, i: nat, j: nat)
    requires FirstAt(text, piece, from, i) && FirstAt(text, piece, from, j)
    ensures i == j
  {
  }

  lemma {:induction false} LevelMeaning(text: Bytes, level: Bytes)
    ensures LevelMatches(text, level) <==> HasLevel(text, level)
  {
    hide Trim, TrimmedTo;
    var a := Find(text, OPENING, 0);
    if a.Some? {
      var b := Find(text, CLOSING, a.value + 2);
      if b.Some? {
        assert Tag(text, a.value, b.value);
        TrimMeaning(text[a.value + 2..b.value], level);
      }
    }
    if HasLevel(text, level) && level != [] && level != ALL {
      var s: nat, e: nat :| Tag(text, s, e) && TrimmedTo(text[s + 2..e], level);
      FoundFirst(text, OPENING, 0, s);
      FoundFirst(text, CLOSING, s + 2, e);
    }
  }

  lemma FoundFirst(text: Bytes, piece: Bytes, from: nat, i: nat)
    requires FirstAt(text, piece, from, i)
    ensures Find(text, piece, from) == Some(i)
  {
    if Find(text, piece, from).Some? { FirstOnce(text, piece, from, i, Find(text, piece, from).value); }
  }

  /** THEOREM: the filter accepts exactly the wanted lines. */
  lemma {:induction false} MatchesMeaning(f: Filter, line: Bytes)
    ensures f.Matches(line) <==> Wanted(f, line)
  {
    LevelMeaning(line, f.level);
    hide LevelMatches, HasLevel;
    if exists i: nat :: StandsAt(line, i, f.query) {
      var i: nat :| StandsAt(line, i, f.query);
      assert !Find(line, f.query, 0).None?;
    }
  }

  /** Without a filter every line is wanted. */
  lemma InactiveWantsAll(f: Filter, line: Bytes)
    requires !f.Active()
    ensures Wanted(f, line)
  {
    assert StandsAt(line, 0, f.query);
  }
}
