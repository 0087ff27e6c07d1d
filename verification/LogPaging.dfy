/** Paging through a log file by byte offset, with level and keyword filters on whole lines. */
module LogPaging {
  import opened Basics
  import opened Utf8
  import opened LogFilter

  const MAX_LOG_SCAN: nat := 256 * 1024 - 2048
  const MAX_LOG_TEXT: nat := 64 * 1024
  const MAX_LOG_LOOKBEHIND: nat := 256 * 1024
  const NEWLINE: Byte := 10

  /** Lossy decoding leaves valid UTF-8 alone. */
  ghost predicate Faithful(lossy: Bytes -> Bytes) {
    forall b :: Valid(b) ==> lossy(b) == b
  }

  // ---------------------------------------------------------------------------- lines

  /** The end of the line that holds byte `p`, past its newline. */
  function LineEnd(f: Bytes, p: nat): (e: nat)
    requires p < |f|
    ensures p < e <= |f|
    decreases |f| - p
  {
    if f[p] == NEWLINE || p + 1 == |f| then p + 1 else LineEnd(f, p + 1)
  }

  /** The start of the line in which position `p` lies. */
  function LineStart(f: Bytes, p: nat): (s: nat)
    requires p <= |f|
    ensures s <= p
    decreases p
  {
    if p == 0 || f[p - 1] == NEWLINE then p else LineStart(f, p - 1)
  }

  /** The characteristic property of a line end, and that it has only one. */
  ghost predicate EndsLine(f: Bytes, p: nat, e: nat) {
    p < e <= |f| && (f[e - 1] == NEWLINE || e == |f|) && forall k :: p <= k < e - 1 ==> f[k] != NEWLINE
  }

  ghost predicate StartsLine(f: Bytes, p: nat, s: nat) {
    s <= p <= |f| && (s == 0 || f[s - 1] == NEWLINE) && forall k :: s <= k < p ==> f[k] != NEWLINE
  }

  lemma {:induction false} LineEndIs(f: Bytes, p: nat, e: nat)
    requires p < |f|
    ensures LineEnd(f, p) == e <==> EndsLine(f, p, e)
    decreases |f| - p
  {
    if f[p] != NEWLINE && p + 1 < |f| {
      LineEndIs(f, p + 1, e);
      assert EndsLine(f, p, e) ==> e != p + 1;
    }
  }

  lemma {:induction false} LineStartIs(f: Bytes, p: nat, s: nat)
    requires p <= |f|
    ensures LineStart(f, p) == s <==> StartsLine(f, p, s)
    decreases p
  {
    if p > 0 && f[p - 1] != NEWLINE {
      LineStartIs(f, p - 1, s);
      assert StartsLine(f, p, s) ==> s != p;
    }
  }

  /** No line, newline included, is longer than one scan. */
  ghost predicate ShortLines(f: Bytes) {
    forall p :: 0 <= p < |f| ==> LineEnd(f, p) - LineStart(f, p) <= MAX_LOG_SCAN
  }

  /** What filtered paging from offset `p` still has to deliver: the rest of the current line if that
      whole line matches, then every later matching line. */
  ghost function Remaining(f: Bytes, filter: Filter, p: nat): Bytes
    requires p <= |f|
    decreases |f| - p
  {
    if p == |f| then []
    else
      var e := LineEnd(f, p);
      Kept(filter, f[LineStart(f, p)..e], f[p..e]) + Remaining(f, filter, e)
  }

  /** The part of a line that is delivered. */
  ghost function Kept(filter: Filter, line: Bytes, part: Bytes): Bytes {
    if Wanted(filter, line) then part else []
  }

  lemma RemainingStep(f: Bytes, filter: Filter, p: nat, t: nat, d: nat)
    requires p < |f| && LineEnd(f, p) == d && LineStart(f, p) == t
    ensures Remaining(f, filter, p) == Kept(filter, f[t..d], f[p..d]) + Remaining(f, filter, d)
  {
    hide LineEnd, LineStart, Kept;
  }

  /** The lines of a file, newlines included. */
  function Lines(f: Bytes): seq<Bytes>
    decreases |f|
  {
    if f == [] then [] else [f[..LineEnd(f, 0)]] + Lines(f[LineEnd(f, 0)..])
  }

  /** The wanted lines, one after the other. */
  ghost function Matching(lines: seq<Bytes>, filter: Filter): Bytes {
    if lines == [] then [] else Kept(filter, lines[0], lines[0]) + Matching(lines[1..], filter)
  }

  /** The lines make up the file, and only their last bytes are newlines. */
  lemma {:induction false} LinesTile(f: Bytes)
    ensures Concat(Lines(f)) == f
    ensures forall i :: 0 <= i < |Lines(f)| ==> Lines(f)[i] != [] && LineEnd(Lines(f)[i], 0) == |Lines(f)[i]|
    ensures forall i :: 0 <= i < |Lines(f)| - 1 ==> Lines(f)[i] != [] && Lines(f)[i][|Lines(f)[i]| - 1] == NEWLINE
    decreases |f|
  {
    if f != [] {
      var e := LineEnd(f, 0);
      LineEndIs(f, 0, e);
      LineEndIs(f[..e], 0, e);
      hide LineEnd;
      LinesTile(f[e..]);
      ConcatFront(f[..e], Lines(f[e..]));
      assert f[..e] + f[e..] == f;
    }
  }

  // --------------------------------------------------------------- a window on the file

  /** A window that starts at a line start and ends at a line end. */
  ghost predicate Window(f: Bytes, s: nat, e: nat) {
    s <= e <= |f| && (s == 0 || f[s - 1] == NEWLINE) && (e == |f| || e == s || f[e - 1] == NEWLINE)
  }

  /** Inside it, lines are the file's. */
  lemma WindowLine(f: Bytes, s: nat, e: nat, p: nat)
    requires Window(f, s, e) && s <= p < e
    ensures LineEnd(f, p) <= e && LineEnd(f[s..e], p - s) == LineEnd(f, p) - s
    ensures s <= LineStart(f, p) && LineStart(f[s..e], p - s) == LineStart(f, p) - s
  {
    hide LineEnd, LineStart;
    var g := f[s..e];
    var d, t := LineEnd(f, p), LineStart(f, p);
    LineEndIs(f, p, d);
    LineStartIs(f, p, t);
    assert forall k :: 0 <= k < |g| ==> g[k] == f[k + s];
    assert d <= e;
    assert s <= t;
    LineEndIs(g, p - s, d - s);
    LineStartIs(g, p - s, t - s);
  }

  lemma Assoc(a: Bytes, b: Bytes, c: Bytes)
    ensures a + (b + c) == a + b + c
  {
  }

  lemma SliceOfSlice(f: Bytes, s: nat, e: nat, lo: nat, hi: nat)
    requires s <= lo <= hi <= e <= |f|
    ensures f[s..e][lo - s..hi - s] == f[lo..hi]
  {
    var a := f[s..e][lo - s..hi - s];
    assert forall k :: 0 <= k < |a| ==> a[k] == f[s..e][lo - s + k] == f[lo + k];
  }

  /** A window's share of what remains, and the rest of the file's. */
  lemma {:induction false} RemainingWindow(f: Bytes, filter: Filter, s: nat, e: nat, p: nat)
    requires Window(f, s, e) && s <= p <= e
    ensures Remaining(f, filter, p) == Remaining(f[s..e], filter, p - s) + Remaining(f, filter, e)
    decreases e - p
  {
    hide *;
    WindowInside(f, s, e);
    if p < e {
      WindowLine(f, s, e, p);
      RemainingWindow(f, filter, s, e, LineEnd(f, p));
      WindowStep(f, filter, s, e, p, LineStart(f, p), LineEnd(f, p));
    } else {
      NothingRemains(f[s..e], filter);
    }
  }

  lemma WindowInside(f: Bytes, s: nat, e: nat)
    requires Window(f, s, e)
    ensures s <= e <= |f|
  {
  }

  lemma NothingRemains(f: Bytes, filter: Filter)
    ensures Remaining(f, filter, |f|) == []
  {
  }

  lemma {:induction false} WindowStep(f: Bytes, filter: Filter, s: nat, e: nat, p: nat, t: nat, d: nat)
    requires s <= t <= p < d <= e <= |f|
    requires LineEnd(f, p) == d && LineStart(f, p) == t
    requires LineEnd(f[s..e], p - s) == d - s && LineStart(f[s..e], p - s) == t - s
    requires Remaining(f, filter, d) == Remaining(f[s..e], filter, d - s) + Remaining(f, filter, e)
    ensures Remaining(f, filter, p) == Remaining(f[s..e], filter, p - s) + Remaining(f, filter, e)
  {
    hide *;
    var g := f[s..e];
    SliceOfSlice(f, s, e, t, d);
    SliceOfSlice(f, s, e, p, d);
    RemainingStep(f, filter, p, t, d);
    RemainingStep(g, filter, p - s, t - s, d - s);
    Assoc(Kept(filter, f[t..d], f[p..d]), Remaining(g, filter, d - s), Remaining(f, filter, e));
  }

  /** Without a filter everything from `p` on remains. */
  lemma {:induction false} RemainingAll(f: Bytes, filter: Filter, p: nat)
    requires !filter.Active() && p <= |f|
    ensures Remaining(f, filter, p) == f[p..]
    decreases |f| - p
  {
    if p < |f| {
      var d, t := LineEnd(f, p), LineStart(f, p);
      InactiveWantsAll(filter, f[t..d]);
      assert Kept(filter, f[t..d], f[p..d]) == f[p..d];
      hide *;
      RemainingAll(f, filter, d);
      RemainingStep(f, filter, p, t, d);
      Regroup(f, p, d);
    }
  }

  lemma Regroup(f: Bytes, p: nat, d: nat)
    requires p <= d <= |f|
    ensures f[p..d] + f[d..] == f[p..]
  {
  }

  /** From the start, what remains is the concatenation of the matching lines. */
  lemma {:induction false} RemainingIsMatching(f: Bytes, filter: Filter)
    ensures Remaining(f, filter, 0) == Matching(Lines(f), filter)
    decreases |f|
  {
    if f != [] {
      var e := LineEnd(f, 0);
      var rest := f[e..];
      RemainingIsMatching(rest, filter);
      RemainingSuffix(f, filter, e);
      RemainingStep(f, filter, 0, 0, e);
      assert f[0..e] == f[..e];
      assert Lines(f)[1..] == Lines(rest) && Lines(f)[0] == f[..e];
      hide LineEnd, Lines, Kept, Remaining;
    }
  }

  lemma RemainingSuffix(f: Bytes, filter: Filter, s: nat)
    requires f != [] && s == LineEnd(f, 0)
    ensures Remaining(f, filter, s) == Remaining(f[s..], filter, 0)
  {
    LineEndIs(f, 0, s);
    assert f[s..] == f[s..|f|];
    if s < |f| {
      RemainingWindow(f, filter, s, |f|, s);
      assert Remaining(f, filter, |f|) == [];
    }
    hide LineEnd;
  }

  // ------------------------------------------------------------------------ one line cut

  function Min(a: nat, b: nat): (m: nat)
    ensures m <= a && m <= b && (m == a || m == b)
  {
    if a < b then a else b
  }

  function CutAt(bytes: Bytes, n: nat): (c: nat)
    requires n <= |bytes|
    ensures c <= n
  {
    if n < |bytes| then CompleteEnd(bytes[..n]) else n
  }

  const REPLACEMENT: Bytes := [0xef, 0xbf, 0xbd]

  /** The first part of a line, within the limit and cut between characters. */
  function BoundedText(lossy: Bytes -> Bytes, bytes: Bytes, limit: nat): (Bytes, nat) {
    var count := CutAt(bytes, Min(|bytes|, limit));
    if Valid(bytes[..count]) then (bytes[..count], count)
    else
      var third := CutAt(bytes, Min(|bytes|, limit / 3));
      if third == 0 && bytes != [] then
        var width := if LeadWidth(bytes[0]) >= 2 then LeadWidth(bytes[0]) else 1;
        if width <= |bytes| && width <= limit && Valid(bytes[..width]) then (bytes[..width], width) else (REPLACEMENT, 1)
      else (lossy(bytes[..third]), third)
  }

  /** On valid text the first attempt succeeds, loses no bytes and makes progress. */
  lemma BoundedTextValid(lossy: Bytes -> Bytes, bytes: Bytes, limit: nat)
    requires Valid(bytes) && 4 <= limit < |bytes|
    ensures var r := BoundedText(lossy, bytes, limit);
            0 < r.1 <= limit && r.0 == bytes[..r.1] && Tiles(bytes, r.1, |bytes|)
  {
    CutValid(bytes, limit);
  }

  // ------------------------------------------------------------------- filtering a window

  /** A page's bytes continue a line that began with `prefix`. */
  ghost predicate PageInput(lossy: Bytes -> Bytes, bytes: Bytes, prefix: Bytes, limit: nat) {
    && Faithful(lossy) && 4 <= limit && Valid(prefix + bytes) && Valid(bytes)
    && forall k :: 0 <= k < |prefix| ==> prefix[k] != NEWLINE
  }

  /** A position at which the page's loop looks at a line. */
  ghost predicate AtLine(bytes: Bytes, at: nat) {
    at <= |bytes| && (at == 0 || at == |bytes| || bytes[at - 1] == NEWLINE) && Tiles(bytes, at, |bytes|)
  }

  lemma ConcatSlices(prefix: Bytes, bytes: Bytes, at: nat, e: nat)
    requires at <= e <= |bytes|
    ensures (prefix + bytes)[|prefix| + at..|prefix| + e] == bytes[at..e]
    ensures (prefix + bytes)[0..|prefix| + e] == prefix + bytes[0..e]
  {
    assert (prefix + bytes)[0..|prefix| + e] == prefix + bytes[0..e];
  }

  /** Lines of the page are lines of prefix and page together. */
  lemma PageLine(prefix: Bytes, bytes: Bytes, at: nat)
    requires at < |bytes| && (at == 0 || bytes[at - 1] == NEWLINE)
    requires forall k :: 0 <= k < |prefix| ==> prefix[k] != NEWLINE
    ensures var g, n := prefix + bytes, |prefix|;
      && LineEnd(g, n + at) == n + LineEnd(bytes, at)
      && LineStart(g, n + at) == if at == 0 then 0 else n + at
  {
    hide LineEnd, LineStart;
    var g, n, e := prefix + bytes, |prefix|, LineEnd(bytes, at);
    var t := if at == 0 then 0 else n + at;
    LineEndIs(bytes, at, e);
    assert forall k :: 0 <= k < |g| ==> g[k] == if k < n then prefix[k] else bytes[k - n];
    assert EndsLine(g, n + at, n + e);
    assert StartsLine(g, n + at, t);
    LineEndIs(g, n + at, n + e);
    LineStartIs(g, n + at, t);
  }

  /** Line ends are character boundaries. */
  lemma LineValid(bytes: Bytes, at: nat)
    requires at < |bytes| && Tiles(bytes, at, |bytes|)
    ensures var e := LineEnd(bytes, at);
      && Tiles(bytes, at, e) && Tiles(bytes, e, |bytes|) && Valid(bytes[at..e]) && AtLine(bytes, e)
  {
    var e := LineEnd(bytes, at);
    LineEndIs(bytes, at, e);
    if bytes[e - 1] == NEWLINE {
      AsciiEndsChar(bytes, at, e - 1);
    }
    SliceValid(bytes, at, e);
    hide LineEnd;
  }

  /** Inside a line, its end and its start stay the same. */
  lemma MidLine(f: Bytes, p: nat, q: nat)
    requires p <= q < |f| && q < LineEnd(f, p)
    ensures LineEnd(f, q) == LineEnd(f, p) && LineStart(f, q) == LineStart(f, p)
  {
    hide LineEnd, LineStart;
    LineEndIs(f, p, LineEnd(f, p));
    LineEndIs(f, q, LineEnd(f, p));
    LineStartIs(f, p, LineStart(f, p));
    LineStartIs(f, q, LineStart(f, p));
  }

  /** Delivering the first `c` bytes of a matching line leaves its rest. */
  lemma PartDelivered(f: Bytes, filter: Filter, p: nat, c: nat)
    requires p < |f| && p + c < LineEnd(f, p) && Wanted(filter, f[LineStart(f, p)..LineEnd(f, p)])
    ensures f[p..p + c] + Remaining(f, filter, p + c) == Remaining(f, filter, p)
  {
    hide *;
    var t, d := LineStart(f, p), LineEnd(f, p);
    MidLine(f, p, p + c);
    RemainingStep(f, filter, p, t, d);
    RemainingStep(f, filter, p + c, t, d);
    KeptWhole(filter, f[t..d], f[p..d]);
    KeptWhole(filter, f[t..d], f[p + c..d]);
    assert f[p..p + c] + f[p + c..d] == f[p..d];
    Assoc(f[p..p + c], f[p + c..d], Remaining(f, filter, d));
  }

  lemma KeptWhole(filter: Filter, line: Bytes, part: Bytes)
    ensures Kept(filter, line, part) == if Wanted(filter, line) then part else []
  {
  }

  /** The text a line of the page is matched by: the whole line, wherever the page starts. */
  function Context(prefix: Bytes, bytes: Bytes, at: nat, e: nat): Bytes
    requires at <= e <= |bytes|
  {
    if at == 0 then prefix + bytes[at..e] else bytes[at..e]
  }

  /** What the loop on a page may rely on at a line. */
  lemma LineOfPage(lossy: Bytes -> Bytes, bytes: Bytes, prefix: Bytes, filter: Filter, limit: nat, at: nat)
    requires PageInput(lossy, bytes, prefix, limit) && AtLine(bytes, at) && at < |bytes|
    ensures var g, n, e := prefix + bytes, |prefix|, LineEnd(bytes, at);
      && AtLine(bytes, e) && Valid(bytes[at..e])
      && lossy(bytes[at..e]) == bytes[at..e] && lossy(Context(prefix, bytes, at, e)) == Context(prefix, bytes, at, e)
      && Remaining(g, filter, n + at) == Kept(filter, Context(prefix, bytes, at, e), bytes[at..e]) + Remaining(g, filter, n + e)
  {
    hide Remaining, Kept, LineEnd, LineStart, Tiles;
    var g, n, e := prefix + bytes, |prefix|, LineEnd(bytes, at);
    LineValid(bytes, at);
    PageLine(prefix, bytes, at);
    ConcatSlices(prefix, bytes, at, e);
    ContextValid(prefix, bytes, at, e);
    RemainingStep(g, filter, n + at, LineStart(g, n + at), n + e);
  }

  lemma ContextValid(prefix: Bytes, bytes: Bytes, at: nat, e: nat)
    requires at < e <= |bytes| && Valid(prefix + bytes) && Valid(bytes[at..e]) && (e == |bytes| || bytes[e - 1] == NEWLINE)
    ensures Valid(Context(prefix, bytes, at, e))
  {
    var g, n := prefix + bytes, |prefix|;
    ConcatSlices(prefix, bytes, at, e);
    if at == 0 {
      assert g[n + e - 1] == bytes[e - 1];
      if bytes[e - 1] == NEWLINE { AsciiEndsChar(g, 0, n + e - 1); }
      SliceValid(g, 0, n + e);
    }
    hide Tiles;
  }

  /** Cutting the first line of a page that is too long for it. */
  lemma {:induction false} CutLine(lossy: Bytes -> Bytes, bytes: Bytes, prefix: Bytes, filter: Filter, limit: nat, at: nat)
    requires PageInput(lossy, bytes, prefix, limit) && AtLine(bytes, at) && at < |bytes|
    requires var e := LineEnd(bytes, at); limit < e - at && Wanted(filter, Context(prefix, bytes, at, e))
    ensures var r := BoundedText(lossy, bytes[at..LineEnd(bytes, at)], limit); var g, n := prefix + bytes, |prefix|;
      && 0 < r.1 && at + r.1 <= |bytes| && |r.0| <= limit && Tiles(bytes, at + r.1, |bytes|)
      && r.0 + Remaining(g, filter, n + at + r.1) == Remaining(g, filter, n + at)
  {
    hide Remaining, Kept, LineEnd, LineStart, Tiles, BoundedText;
    var g, n, e := prefix + bytes, |prefix|, LineEnd(bytes, at);
    var line := bytes[at..e];
    LineValid(bytes, at);
    BoundedTextValid(lossy, line, limit);
    var c := BoundedText(lossy, line, limit).1;
    assert line[..c] == bytes[at..at + c];
    CutBoundary(bytes, at, e, c);
    PagePart(prefix, bytes, filter, at, c);
  }

  lemma PagePart(prefix: Bytes, bytes: Bytes, filter: Filter, at: nat, c: nat)
    requires at < |bytes| && (at == 0 || bytes[at - 1] == NEWLINE) && forall k :: 0 <= k < |prefix| ==> prefix[k] != NEWLINE
    requires var e := LineEnd(bytes, at); at + c < e && Wanted(filter, Context(prefix, bytes, at, e))
    ensures var g, n := prefix + bytes, |prefix|;
            bytes[at..at + c] + Remaining(g, filter, n + at + c) == Remaining(g, filter, n + at)
  {
    hide *;
    var g, n, e := prefix + bytes, |prefix|, LineEnd(bytes, at);
    PageLine(prefix, bytes, at);
    ConcatSlices(prefix, bytes, at, at + c);
    ContextIsLine(prefix, bytes, at, e);
    PartDelivered(g, filter, n + at, c);
  }

  lemma ContextIsLine(prefix: Bytes, bytes: Bytes, at: nat, e: nat)
    requires at <= e <= |bytes|
    ensures (prefix + bytes)[if at == 0 then 0 else |prefix| + at..|prefix| + e] == Context(prefix, bytes, at, e)
  {
    ConcatSlices(prefix, bytes, at, e);
  }

  lemma CutBoundary(bytes: Bytes, at: nat, e: nat, c: nat)
    requires at + c <= e <= |bytes| && Tiles(bytes[at..e], c, e - at) && Tiles(bytes, e, |bytes|)
    ensures Tiles(bytes, at + c, |bytes|)
  {
    TilesUnshift(bytes, at, e, at + c, e);
    TilesSplit(bytes, at + c, e, |bytes|);
  }

  /** Output so far and what remains from `at` make up what remains from the page's start. */
  ghost predicate Owes(prefix: Bytes, bytes: Bytes, filter: Filter, output: Bytes, at: nat) {
    && at <= |bytes| && Tiles(bytes, at, |bytes|)
    && output + Remaining(prefix + bytes, filter, |prefix| + at) == Remaining(prefix + bytes, filter, |prefix|)
  }

  lemma OwesAll(lossy: Bytes -> Bytes, bytes: Bytes, prefix: Bytes, filter: Filter, limit: nat)
    requires PageInput(lossy, bytes, prefix, limit)
    ensures Owes(prefix, bytes, filter, [], 0) && AtLine(bytes, 0)
  {
    hide Remaining, Tiles;
  }

  lemma OwesLine(lossy: Bytes -> Bytes, bytes: Bytes, prefix: Bytes, filter: Filter, limit: nat, output: Bytes, at: nat)
    requires PageInput(lossy, bytes, prefix, limit) && AtLine(bytes, at) && at < |bytes|
    requires Owes(prefix, bytes, filter, output, at)
    ensures var e := LineEnd(bytes, at); var line := bytes[at..e];
      && AtLine(bytes, e) && lossy(line) == line
      && Owes(prefix, bytes, filter, output + if Wanted(filter, lossy(Context(prefix, bytes, at, e))) then line else [], e)
  {
    hide Remaining, Tiles, LineEnd, PageInput, Context;
    var e := LineEnd(bytes, at);
    var line, whole := bytes[at..e], Context(prefix, bytes, at, e);
    LineOfPage(lossy, bytes, prefix, filter, limit, at);
    KeptWhole(filter, whole, line);
    hide Kept;
    OwesStep(output, Kept(filter, whole, line), Remaining(prefix + bytes, filter, |prefix|),
             Remaining(prefix + bytes, filter, |prefix| + at), Remaining(prefix + bytes, filter, |prefix| + e));
  }

  lemma OwesStep(output: Bytes, kept: Bytes, r0: Bytes, r1: Bytes, r2: Bytes)
    requires output + r1 == r0 && r1 == kept + r2
    ensures output + kept + r2 == r0
  {
    Assoc(output, kept, r2);
  }

  lemma OwesPart(lossy: Bytes -> Bytes, bytes: Bytes, prefix: Bytes, filter: Filter, limit: nat, at: nat)
    requires PageInput(lossy, bytes, prefix, limit) && AtLine(bytes, at) && at < |bytes|
    requires Owes(prefix, bytes, filter, [], at)
    requires var e := LineEnd(bytes, at); limit < e - at && Wanted(filter, lossy(Context(prefix, bytes, at, e)))
    ensures var r := BoundedText(lossy, bytes[at..LineEnd(bytes, at)], limit);
            r.1 > 0 && |r.0| <= limit && Owes(prefix, bytes, filter, r.0, at + r.1)
  {
    hide Remaining, Tiles, LineEnd, BoundedText;
    LineOfPage(lossy, bytes, prefix, filter, limit, at);
    CutLine(lossy, bytes, prefix, filter, limit, at);
    assert [] + Remaining(prefix + bytes, filter, |prefix| + at) == Remaining(prefix + bytes, filter, |prefix| + at);
  }

  /** One page of filtered output from a window: never more than the limit, always some progress, and
      what it delivers and what remains make up what was asked for. */
  method FilterLogPage(lossy: Bytes -> Bytes, bytes: Bytes, prefix: Bytes, filter: Filter, limit: nat)
    returns (output: Bytes, consumed: nat, limited: bool)
    ensures PageInput(lossy, bytes, prefix, limit) ==>
              |output| <= limit && (bytes != [] ==> consumed > 0) && Owes(prefix, bytes, filter, output, consumed)
  {
    hide *;
    ghost var sane := PageInput(lossy, bytes, prefix, limit);
    if sane { OwesAll(lossy, bytes, prefix, filter, limit); }
    output, consumed, limited := [], 0, false;
    while consumed < |bytes|
      invariant consumed <= |bytes| && |output| <= limit && (output != [] ==> consumed > 0)
      invariant sane ==> AtLine(bytes, consumed) && Owes(prefix, bytes, filter, output, consumed)
      decreases |bytes| - consumed
    {
      var e := LineEnd(bytes, consumed);
      var line := bytes[consumed..e];
      var text := lossy(line);
      var matched := lossy(Context(prefix, bytes, consumed, e));
      if sane { OwesLine(lossy, bytes, prefix, filter, limit, output, consumed); }
      MatchesMeaning(filter, matched);
      if filter.Matches(matched) {
        if |text| <= limit - |output| {
          output := output + text;
        } else if output != [] {
          limited := true;
          return;
        } else {
          if sane { OwesPart(lossy, bytes, prefix, filter, limit, consumed); }
          var (part, count) := BoundedText(lossy, line, limit);
          output, consumed, limited := part, consumed + count, true;
          return;
        }
      } else {
        assert output + [] == output;
      }
      consumed := e;
    }
  }

  // ----------------------------------------------------------------------- looking back

  /** The newline before the line of `offset`, or the start of the file, is within reach. */
  predicate WithinReach(f: Bytes, offset: nat)
    requires offset <= |f|
  {
    var s := LineStart(f, offset);
    offset - (if s == 0 then 0 else s - 1) <= MAX_LOG_LOOKBEHIND
  }

  /** The earlier part of the line in which a page starts, read backwards in blocks; refused exactly
      when its start is out of reach. */
  method ReadLinePrefix(f: Bytes, offset: nat) returns (r: Option<Bytes>)
    requires offset <= |f|
    ensures r.Some? <==> WithinReach(f, offset)
    ensures r.Some? ==> r.value == f[LineStart(f, offset)..offset]
  {
    ghost var start := LineStart(f, offset);
    LineStartIs(f, offset, start);
    hide LineStart;
    if offset == 0 { return Some([]); }
    if f[offset - 1] == NEWLINE {
      LineStartIs(f, offset, offset);
      return Some([]);
    }
    hide StartsLine;
    var cursor: nat, scanned: nat := offset - 1, 1;
    var tail := f[cursor..offset];
    NotAtStart(f, offset, start);
    while cursor > 0 && scanned < MAX_LOG_LOOKBEHIND
      invariant cursor + scanned == offset && 1 <= scanned <= MAX_LOG_LOOKBEHIND
      invariant tail == f[cursor..offset] && start <= cursor
      decreases cursor
    {
      var count := Min(Min(cursor, 4096), MAX_LOG_LOOKBEHIND - scanned);
      var lo := cursor - count;
      var chunk := f[lo..cursor];
      var k := LineStart(chunk, count);
      LineStartIs(chunk, count, k);
      ChunkLine(f, offset, lo, cursor, k, start);
      JoinChunk(f, lo, cursor, offset, k);
      if k > 0 {
        return Some(chunk[k..] + tail);
      }
      tail := chunk + tail;
      cursor, scanned := lo, scanned + count;
    }
    r := if cursor != 0 then None else Some(tail);
  }

  lemma NotAtStart(f: Bytes, offset: nat, start: nat)
    requires 0 < offset <= |f| && f[offset - 1] != NEWLINE && StartsLine(f, offset, start)
    ensures start < offset
  {
  }

  lemma JoinChunk(f: Bytes, lo: nat, mid: nat, hi: nat, k: nat)
    requires lo + k <= mid <= hi <= |f|
    ensures f[lo..mid][k..] + f[mid..hi] == f[lo + k..hi]
    ensures f[lo..mid] + f[mid..hi] == f[lo..hi]
  {
    SliceOfSlice(f, lo, mid, lo + k, mid);
    assert f[lo + k..mid] + f[mid..hi] == f[lo + k..hi];
  }

  /** A block in front of a newline-free stretch either holds the line's start or belongs to it. */
  lemma ChunkLine(f: Bytes, offset: nat, lo: nat, hi: nat, k: nat, start: nat)
    requires lo <= hi <= offset <= |f| && start <= hi && StartsLine(f, offset, start) && k <= hi - lo
    requires StartsLine(f[lo..hi], hi - lo, k)
    ensures if k > 0 then start == lo + k else start <= lo
  {
    var chunk := f[lo..hi];
    assert forall i :: 0 <= i < |chunk| ==> chunk[i] == f[lo + i];
    if k > 0 {
      assert f[lo + k - 1] == NEWLINE;
      assert start >= lo + k;
      assert start <= lo + k;
    } else {
      assert start <= lo;
    }
  }

  // ------------------------------------------------------------------------------ pages

  datatype Reply = Refused | Page(text: Bytes, offset: nat, next: nat, eof: bool)

  /** What the paging theorem is about: a valid UTF-8 file whose lines fit one scan. */
  ghost predicate Pageable(lossy: Bytes -> Bytes, f: Bytes, filter: Filter) {
    Faithful(lossy) && Permitted(filter) && Valid(f) && ShortLines(f)
  }

  /** A page that keeps the limit, makes progress, ends between characters, and together with what
      remains after it is what remained before it. */
  ghost predicate Served(f: Bytes, filter: Filter, limit: nat, o: nat, r: Reply) {
    && r.Page? && r.offset == o <= r.next <= |f| && |r.text| <= limit
    && (o < |f| ==> o < r.next) && (r.eof <==> r.next == |f|) && Tiles(f, r.next, |f|)
    && r.text + Remaining(f, filter, r.next) == Remaining(f, filter, o)
  }

  /** Up to three tail bytes at the front. */
  function LeadingTails(b: Bytes): (n: nat)
    ensures n <= |b|
  {
    if |b| > 0 && Tail(b[0]) then
      if |b| > 1 && Tail(b[1]) then
        if |b| > 2 && Tail(b[2]) then 3 else 2
      else 1
    else 0
  }

  /** The window from a character boundary ends at a line end inside the scan. */
  lemma WindowChosen(f: Bytes, o: nat, end: nat)
    requires Valid(f) && ShortLines(f) && o < |f| && Tiles(f, o, |f|) && end == o + Min(|f| - o, MAX_LOG_SCAN)
    ensures LeadingTails(f[o..end]) == 0
    ensures end < |f| ==> var k := LineStart(f[o..end], end - o); 0 < k <= end - o && f[o + k - 1] == NEWLINE
  {
    hide LineEnd, LineStart, Tiles;
    assert !Tail(f[o]) by { FirstIsLead(f, o); }
    if end < |f| {
      var w, e := f[o..end], LineEnd(f, o);
      assert e - LineStart(f, o) <= MAX_LOG_SCAN;
      LineEndIs(f, o, e);
      var k := LineStart(w, end - o);
      LineStartIs(w, end - o, k);
      assert w[e - 1 - o] == f[e - 1] == NEWLINE;
      assert w[k - 1] == f[o + k - 1];
    }
  }

  lemma FirstIsLead(f: Bytes, o: nat)
    requires o < |f| && Tiles(f, o, |f|)
    ensures !Tail(f[o])
  {
  }

  /** A window and the part of its first line that precedes it make a page's input. */
  lemma {:induction false} PageReady(lossy: Bytes -> Bytes, f: Bytes, filter: Filter, o: nat, e: nat, limit: nat)
    requires Pageable(lossy, f, filter) && o < e <= |f| && Tiles(f, o, |f|) && (e == |f| || f[e - 1] == NEWLINE) && 4 <= limit
    ensures var s := LineStart(f, o);
      && PageInput(lossy, f[o..e], f[s..o], limit) && PageInput(lossy, f[o..e], [], limit)
      && f[s..o] + f[o..e] == f[s..e] && Window(f, s, e)
  {
    hide LineStart, Tiles, Valid, ShortLines;
    var s := LineStart(f, o);
    LineStartIs(f, o, s);
    BoundaryBefore(f, s);
    CutAtLineEnd(f, s, e);
    CutAtLineEnd(f, o, e);
    assert f[s..o] + f[o..e] == f[s..e];
    assert [] + f[o..e] == f[o..e];
    assert forall k :: 0 <= k < |f[s..o]| ==> f[s..o][k] == f[s + k];
  }

  lemma BoundaryBefore(f: Bytes, s: nat)
    requires Valid(f) && s < |f| && (s == 0 || f[s - 1] == NEWLINE)
    ensures Tiles(f, s, |f|)
  {
    if s > 0 { AsciiEndsChar(f, 0, s - 1); }
  }

  lemma CutAtLineEnd(f: Bytes, o: nat, e: nat)
    requires o < e <= |f| && Tiles(f, o, |f|) && (e == |f| || f[e - 1] == NEWLINE)
    ensures Tiles(f, o, e) && Tiles(f, e, |f|) && Valid(f[o..e])
  {
    if e < |f| { AsciiEndsChar(f, o, e - 1); }
    SliceValid(f, o, e);
  }

  /** What a page owes within its window it owes within the file. */
  lemma PageServed(lossy: Bytes -> Bytes, f: Bytes, filter: Filter, o: nat, e: nat, prefix: Bytes, text: Bytes, consumed: nat)
    requires Pageable(lossy, f, filter) && o < e <= |f| && Tiles(f, o, |f|) && (e == |f| || f[e - 1] == NEWLINE)
    requires prefix == if filter.Active() then f[LineStart(f, o)..o] else []
    requires Owes(prefix, f[o..e], filter, text, consumed)
    ensures o + consumed <= |f| && Tiles(f, o + consumed, |f|)
    ensures text + Remaining(f, filter, o + consumed) == Remaining(f, filter, o)
  {
    hide LineStart, Tiles, Remaining, ShortLines, Valid;
    CutAtLineEnd(f, o, e);
    CutBoundary(f, o, e, consumed);
    if filter.Active() {
      var s := LineStart(f, o);
      PageReady(lossy, f, filter, o, e, 4);
      ServedFiltered(f, filter, s, o, e, text, consumed);
    } else {
      assert [] + f[o..e] == f[o..e];
      ServedWhole(f, filter, o, e, text, consumed);
    }
  }

  lemma {:induction false} ServedFiltered(f: Bytes, filter: Filter, s: nat, o: nat, e: nat, text: Bytes, c: nat)
    requires Window(f, s, e) && s <= o && o + c <= e
    requires text + Remaining(f[s..e], filter, o - s + c) == Remaining(f[s..e], filter, o - s)
    ensures text + Remaining(f, filter, o + c) == Remaining(f, filter, o)
  {
    hide *;
    WindowInside(f, s, e);
    RemainingWindow(f, filter, s, e, o);
    RemainingWindow(f, filter, s, e, o + c);
    Assoc(text, Remaining(f[s..e], filter, o - s + c), Remaining(f, filter, e));
  }

  lemma ServedWhole(f: Bytes, filter: Filter, o: nat, e: nat, text: Bytes, c: nat)
    requires !filter.Active() && o + c <= e <= |f|
    requires text + Remaining(f[o..e], filter, c) == Remaining(f[o..e], filter, 0)
    ensures text + Remaining(f, filter, o + c) == Remaining(f, filter, o)
  {
    hide *;
    RemainingAll(f[o..e], filter, 0);
    RemainingAll(f[o..e], filter, c);
    RemainingAll(f, filter, o);
    RemainingAll(f, filter, o + c);
    Regroup(f, o, e);
    Regroup(f, o + c, e);
    SliceOfSlice(f, o, e, o + c, e);
    assert f[o..e][c..] == f[o + c..e] && f[o..e][0..] == f[o..e];
    Assoc(text, f[o + c..e], f[e..]);
  }

  lemma EndServed(f: Bytes, filter: Filter, prefix: Bytes, text: Bytes, c: nat)
    requires prefix == [] && Owes(prefix, [], filter, text, c)
    ensures c == 0 && text == [] && Tiles(f, |f|, |f|)
  {
    assert prefix + [] == [];
    assert text + [] == text;
  }

  lemma EmptyInput(lossy: Bytes -> Bytes, limit: nat)
    requires Faithful(lossy) && 4 <= limit
    ensures PageInput(lossy, [], [], limit)
  {
    var none: Bytes := [];
    assert none + none == none;
  }

  lemma ReachesBack(f: Bytes, o: nat)
    requires ShortLines(f) && o < |f|
    ensures WithinReach(f, o)
  {
    hide LineStart, LineEnd;
    assert LineEnd(f, o) - LineStart(f, o) <= MAX_LOG_SCAN;
  }

  lemma HasNewline(f: Bytes, o: nat, n: nat)
    requires o + n <= |f| && n > 0 && f[o + n - 1] == NEWLINE
    ensures LineStart(f[o..o + n], n) == n
  {
  }

  /** The bytes a page works on: from the requested offset to a line end, all of the rest at most. */
  ghost predicate GoodWindow(f: Bytes, o: nat, bytes: Bytes, more: bool) {
    && o + |bytes| <= |f| && bytes == f[o..o + |bytes|]
    && (o + |bytes| == |f| || (bytes != [] && f[o + |bytes| - 1] == NEWLINE && LineStart(bytes, |bytes|) > 0))
    && (more ==> LineStart(bytes, |bytes|) > 0)
  }

  lemma WindowIsGood(f: Bytes, o: nat, end: nat, lastLine: nat, bytes: Bytes)
    requires o <= end <= |f|
    requires end < |f| ==> 0 < lastLine <= end - o && f[o + lastLine - 1] == NEWLINE && bytes == f[o..end][..lastLine]
    requires end == |f| ==> bytes == f[o..end]
    ensures GoodWindow(f, o, bytes, end < |f|)
  {
    hide LineStart;
    if end < |f| {
      SliceOfSlice(f, o, end, o, o + lastLine);
      HasNewline(f, o, lastLine);
    }
  }

  /** Scan from the offset, resynchronise on a character, and stop at the last line end seen. */
  method SelectWindow(f: Bytes, requested: nat) returns (offset: nat, bytes: Bytes, more: bool)
    requires requested <= |f|
    ensures offset <= |f|
    ensures Valid(f) && ShortLines(f) && Tiles(f, requested, |f|) ==> offset == requested && GoodWindow(f, requested, bytes, more)
  {
    ghost var sane := Valid(f) && ShortLines(f) && Tiles(f, requested, |f|);
    hide Valid, ShortLines, Tiles, LineStart, GoodWindow, CompleteEnd;
    offset := requested;
    var end := offset + Min(|f| - offset, MAX_LOG_SCAN);
    bytes := f[offset..end];
    if sane && requested < |f| { WindowChosen(f, requested, end); }
    if offset > 0 {
      var skip := LeadingTails(bytes);
      bytes, offset := bytes[skip..], offset + skip;
    }
    more := end < |f|;
    var lastLine := LineStart(bytes, |bytes|);
    if more {
      bytes := if lastLine > 0 then bytes[..lastLine] else bytes[..CompleteEnd(bytes)];
    }
    if sane { WindowIsGood(f, requested, end, lastLine, bytes); }
  }

  /** A good window is a page's input, with or without the earlier part of its first line. */
  lemma {:induction false} WindowReady(lossy: Bytes -> Bytes, f: Bytes, filter: Filter, o: nat, bytes: Bytes, more: bool, limit: nat)
    requires Pageable(lossy, f, filter) && o <= |f| && Tiles(f, o, |f|) && GoodWindow(f, o, bytes, more) && 4 <= limit
    ensures PageInput(lossy, bytes, [], limit)
    ensures bytes != [] ==> WithinReach(f, o) && PageInput(lossy, bytes, f[LineStart(f, o)..o], limit)
    ensures more ==> LineStart(bytes, |bytes|) > 0
  {
    hide LineStart, Tiles, Valid, WithinReach, PageInput, ShortLines;
    if bytes == [] {
      EmptyInput(lossy, limit);
    } else {
      PageReady(lossy, f, filter, o, o + |bytes|, limit);
      ReachesBack(f, o);
    }
  }

  lemma {:induction false} WindowServed(lossy: Bytes -> Bytes, f: Bytes, filter: Filter, o: nat, bytes: Bytes, more: bool, prefix: Bytes, limit: nat, r: Reply)
    requires Pageable(lossy, f, filter) && o <= |f| && Tiles(f, o, |f|) && GoodWindow(f, o, bytes, more)
    requires prefix == if filter.Active() && bytes != [] then f[LineStart(f, o)..o] else []
    requires r.Page? && r.offset == o && |r.text| <= limit && (r.eof <==> r.next >= |f|) && o <= r.next
    requires (bytes != [] ==> r.next > o) && Owes(prefix, bytes, filter, r.text, r.next - o)
    ensures Served(f, filter, limit, o, r)
  {
    hide LineStart, Tiles, Valid, ShortLines, Remaining, Owes;
    if bytes == [] {
      EndServed(f, filter, prefix, r.text, r.next - o);
    } else {
      PageServed(lossy, f, filter, o, o + |bytes|, prefix, r.text, r.next - o);
    }
  }

  /** One request for a page of a file that does not change meanwhile. */
  method ReadLog(lossy: Bytes -> Bytes, f: Bytes, requested: nat, limit: nat, filter: Filter) returns (r: Reply)
    ensures !(4 <= limit <= MAX_LOG_TEXT) || requested > |f| || !Permitted(filter) ==> r == Refused
    ensures Pageable(lossy, f, filter) && 4 <= limit <= MAX_LOG_TEXT && requested <= |f| && Tiles(f, requested, |f|) ==>
              Served(f, filter, limit, requested, r)
  {
    hide Served, PageInput, Owes, Tiles, LineStart, WithinReach, Permitted, Faithful, Valid, ShortLines, GoodWindow;
    if !(4 <= limit <= MAX_LOG_TEXT) || !Permitted(filter) || requested > |f| { return Refused; }
    ghost var sane := Pageable(lossy, f, filter) && Tiles(f, requested, |f|);
    var offset, bytes, more := SelectWindow(f, requested);
    if sane { WindowReady(lossy, f, filter, requested, bytes, more, limit); }
    var prefix: Bytes := [];
    if filter.Active() && bytes != [] {
      var before := ReadLinePrefix(f, offset);
      if before.None? { return Refused; }
      prefix := before.value;
    }
    if more && LineStart(bytes, |bytes|) == 0 && filter.query != [] {
      var context := lossy(prefix + bytes);
      if LevelMatches(context, filter.level) && !Contains(context, filter.query) { return Refused; }
    }
    var text, consumed, _ := FilterLogPage(lossy, bytes, prefix, filter, limit);
    r := Page(text, offset, offset + consumed, offset + consumed >= |f|);
    if sane { WindowServed(lossy, f, filter, requested, bytes, more, prefix, limit, r); }
  }

  /** THEOREM: following `next` from 0 with any limits delivers, page by page, exactly the matching
      lines of the file; every page keeps its limit and moves forward, so the reading ends. */
  method ReadWhole(lossy: Bytes -> Bytes, f: Bytes, filter: Filter, limits: nat -> nat) returns (pages: seq<Bytes>)
    requires Pageable(lossy, f, filter) && forall k :: 4 <= limits(k) <= MAX_LOG_TEXT
    ensures Concat(pages) == Matching(Lines(f), filter)
    ensures forall k :: 0 <= k < |pages| ==> |pages[k]| <= limits(k)
  {
    pages := [];
    var offset := 0;
    RemainingIsMatching(f, filter);
    hide Remaining, Tiles, Lines, Matching;
    while offset < |f|
      invariant offset <= |f| && Tiles(f, offset, |f|)
      invariant Concat(pages) + Remaining(f, filter, offset) == Remaining(f, filter, 0)
      invariant forall k :: 0 <= k < |pages| ==> |pages[k]| <= limits(k)
      decreases |f| - offset
    {
      var r := ReadLog(lossy, f, offset, limits(|pages|), filter);
      Assoc(Concat(pages), r.text, Remaining(f, filter, r.next));
      assert (pages + [r.text])[..|pages|] == pages;
      pages, offset := pages + [r.text], r.next;
    }
    NothingRemains(f, filter);
  }
}
