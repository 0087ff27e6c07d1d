/** UTF-8 as section 4 of RFC 3629 defines it, and cutting a text without splitting a character. */
module Utf8 {
  import opened Basics

  predicate Tail(x: Byte) { 0x80 <= x <= 0xbf }

  /** Number of bytes the first byte of a character announces; 0 for a byte that starts none. */
  function LeadWidth(x: Byte): nat {
    if x < 0x80 then 1
    else if 0xc2 <= x <= 0xdf then 2
    else if 0xe0 <= x <= 0xef then 3
    else if 0xf0 <= x <= 0xf4 then 4
    else 0
  }

  /** The range the second byte of a longer character is restricted to. */
  predicate Second(lead: Byte, x: Byte) {
    if lead == 0xe0 then 0xa0 <= x <= 0xbf
    else if lead == 0xed then 0x80 <= x <= 0x9f
    else if lead == 0xf0 then 0x90 <= x <= 0xbf
    else if lead == 0xf4 then 0x80 <= x <= 0x8f
    else Tail(x)
  }

  /** A well-formed character of width `w` stands at `i`. */
  predicate CharAt(b: Bytes, i: nat, w: nat) {
    && 1 <= w <= 4 && i + w <= |b| && LeadWidth(b[i]) == w
    && (w >= 2 ==> Second(b[i], b[i + 1]))
    && (w >= 3 ==> Tail(b[i + 2]))
    && (w == 4 ==> Tail(b[i + 3]))
  }

  /** Well-formed characters lie end to end from `i` to `e`. */
  predicate Tiles(b: Bytes, i: nat, e: nat)
    requires i <= |b| && e <= |b|
    decreases |b| - i
  {
    if i >= e then i == e
    else
      var w := LeadWidth(b[i]);
      CharAt(b, i, w) && Tiles(b, i + w, e)
  }

  predicate Valid(b: Bytes) { Tiles(b, 0, |b|) }

  /** All bytes of a character after the first are tail bytes. */
  lemma CharTails(b: Bytes, i: nat, w: nat, k: nat)
    requires CharAt(b, i, w) && 0 < k < w
    ensures Tail(b[i + k])
  {
  }

  lemma {:induction false} TilesSplit(b: Bytes, i: nat, m: nat, e: nat)
    requires i <= m <= e <= |b| && Tiles(b, i, m)
    ensures Tiles(b, i, e) <==> Tiles(b, m, e)
    decreases m - i
  {
    if i < m { TilesSplit(b, i + LeadWidth(b[i]), m, e); }
  }

  /** Moving a text inside another does not change where its characters are. */
  lemma {:induction false} TilesShift(b: Bytes, lo: nat, hi: nat, i: nat, e: nat)
    requires lo <= i <= e <= hi <= |b| && Tiles(b, i, e)
    ensures Tiles(b[lo..hi], i - lo, e - lo)
    decreases e - i
  {
    if i < e {
      var w := LeadWidth(b[i]);
      TilesInside(b, i, e);
      CharShift(b, lo, hi, i, w);
      TilesShift(b, lo, hi, i + w, e);
    }
  }

  lemma {:induction false} TilesUnshift(b: Bytes, lo: nat, hi: nat, i: nat, e: nat)
    requires lo <= i <= e <= hi <= |b| && Tiles(b[lo..hi], i - lo, e - lo)
    ensures Tiles(b, i, e)
    decreases e - i
  {
    if i < e {
      var c := b[lo..hi];
      var w := LeadWidth(c[i - lo]);
      TilesInside(c, i - lo, e - lo);
      assert forall k :: lo <= k < hi ==> c[k - lo] == b[k];
      assert CharAt(b, i, w);
      TilesUnshift(b, lo, hi, i + w, e);
    }
  }

  lemma TilesInside(b: Bytes, i: nat, e: nat)
    requires i < e <= |b| && Tiles(b, i, e)
    ensures CharAt(b, i, LeadWidth(b[i])) && i + LeadWidth(b[i]) <= e
  {
    var j := i + LeadWidth(b[i]);
    assert Tiles(b, j, e);
  }

  lemma CharShift(b: Bytes, lo: nat, hi: nat, i: nat, w: nat)
    requires lo <= i && i + w <= hi <= |b| && CharAt(b, i, w)
    ensures CharAt(b[lo..hi], i - lo, w)
  {
    assert forall k :: lo <= k < hi ==> b[lo..hi][k - lo] == b[k];
    hide LeadWidth, Second, Tail;
  }

  lemma SliceValid(b: Bytes, i: nat, e: nat)
    requires i <= e <= |b| && Tiles(b, i, e)
    ensures Valid(b[i..e])
  {
    TilesShift(b, i, e, i, e);
  }

  /** A single-byte character is a character of its own wherever it occurs. */
  lemma {:induction false} AsciiEndsChar(b: Bytes, i: nat, p: nat)
    requires i <= p < |b| && Tiles(b, i, |b|) && b[p] < 0x80
    ensures Tiles(b, i, p) && Tiles(b, i, p + 1) && Tiles(b, p + 1, |b|)
    decreases p - i
  {
    var w := LeadWidth(b[i]);
    if i + w <= p {
      AsciiEndsChar(b, i + w, p);
    } else if i < p {
      CharTails(b, i, w, p - i);
      assert false;
    }
  }

  // --------------------------------------------------- characters are scalar values

  /** A code point that is not a surrogate. */
  predicate Scalar(c: nat) { c < 0xd800 || 0xe000 <= c <= 0x10_ffff }

  /** Its encoding, six bits to a tail byte. */
  function Encode(c: nat): Bytes
    requires Scalar(c)
  {
    if c < 0x80 then [c]
    else if c < 0x800 then [0xc0 + c / 0x40, 0x80 + c % 0x40]
    else if c < 0x1_0000 then [0xe0 + c / 0x1000, 0x80 + c / 0x40 % 0x40, 0x80 + c % 0x40]
    else [0xf0 + c / 0x4_0000, 0x80 + c / 0x1000 % 0x40, 0x80 + c / 0x40 % 0x40, 0x80 + c % 0x40]
  }

  function EncodeAll(text: seq<nat>): Bytes
    requires forall k :: 0 <= k < |text| ==> Scalar(text[k])
  {
    if text == [] then [] else Encode(text[0]) + EncodeAll(text[1..])
  }

  lemma EncodedChar(c: nat, rest: Bytes)
    requires Scalar(c)
    ensures LeadWidth(Encode(c)[0]) == |Encode(c)| && CharAt(Encode(c) + rest, 0, |Encode(c)|)
  {
    var q := c / 0x1000;
    assert c / 0x4_0000 == q / 0x40;
    assert c / 0x40 / 0x40 == q;
  }

  /** The scalar value a well-formed character encodes. */
  lemma CharEncodes(b: Bytes, i: nat, w: nat) returns (c: nat)
    requires CharAt(b, i, w)
    ensures Scalar(c) && Encode(c) == b[i..i + w]
  {
    if w == 1 {
      c := b[i];
    } else if w == 2 {
      c := TwoBytes(b[i], b[i + 1]);
    } else if w == 3 {
      c := ThreeBytes(b[i], b[i + 1], b[i + 2]);
    } else {
      c := FourBytes(b[i], b[i + 1], b[i + 2], b[i + 3]);
    }
  }

  lemma TwoBytes(x: Byte, y: Byte) returns (c: nat)
    requires 0xc2 <= x <= 0xdf && Tail(y)
    ensures Scalar(c) && Encode(c) == [x, y]
  {
    var high: nat := x - 0xc0;
    c := high * 0x40 + (y - 0x80);
  }

  lemma ThreeBytes(x: Byte, y: Byte, z: Byte) returns (c: nat)
    requires 0xe0 <= x <= 0xef && Second(x, y) && Tail(z)
    ensures Scalar(c) && Encode(c) == [x, y, z]
  {
    var high := (x - 0xe0) * 0x40 + (y - 0x80);
    c := high * 0x40 + (z - 0x80);
    assert c / 0x40 == high && c % 0x40 == z - 0x80;
    assert c / 0x1000 == high / 0x40 == x - 0xe0;
  }

  lemma FourBytes(x: Byte, y: Byte, z: Byte, v: Byte) returns (c: nat)
    requires 0xf0 <= x <= 0xf4 && Second(x, y) && Tail(z) && Tail(v)
    ensures Scalar(c) && Encode(c) == [x, y, z, v]
  {
    var top := (x - 0xf0) * 0x40 + (y - 0x80);
    var high := top * 0x40 + (z - 0x80);
    c := high * 0x40 + (v - 0x80);
    assert c / 0x40 == high && c % 0x40 == v - 0x80 && high / 0x40 == top;
    assert c / 0x1000 == top && c / 0x4_0000 == top / 0x40 == x - 0xf0;
  }

  /** Valid text encodes a sequence of scalar values. */
  lemma {:induction false} ValidEncodes(b: Bytes, i: nat) returns (text: seq<nat>)
    requires i <= |b| && Tiles(b, i, |b|)
    ensures (forall k :: 0 <= k < |text| ==> Scalar(text[k])) && EncodeAll(text) == b[i..]
    decreases |b| - i
  {
    if i == |b| {
      text := [];
    } else {
      var w := LeadWidth(b[i]);
      var c := CharEncodes(b, i, w);
      var rest := ValidEncodes(b, i + w);
      text := [c] + rest;
      hide Encode, CharAt, Scalar;
      assert b[i..i + w] + b[i + w..] == b[i..];
    }
  }

  /** And every such encoding is valid. */
  lemma {:induction false} EncodingValid(text: seq<nat>)
    requires forall k :: 0 <= k < |text| ==> Scalar(text[k])
    ensures Valid(EncodeAll(text))
    decreases |text|
  {
    if text != [] {
      var b, rest := EncodeAll(text), EncodeAll(text[1..]);
      var w := |Encode(text[0])|;
      EncodingValid(text[1..]);
      EncodedChar(text[0], rest);
      hide Encode, CharAt, Scalar, LeadWidth;
      assert b[w..|b|] == rest && b[0] == Encode(text[0])[0];
      TilesUnshift(b, w, |b|, w, |b|);
    }
  }

  // ----------------------------------------------------------------- cutting a text

  /** The last character boundary at or before `n`. */
  function Floor(b: Bytes, i: nat, n: nat): nat
    requires i <= n <= |b| && Tiles(b, i, |b|)
    decreases n - i
  {
    if i == n || i + LeadWidth(b[i]) > n then i else Floor(b, i + LeadWidth(b[i]), n)
  }

  lemma {:induction false} FloorIsBoundary(b: Bytes, i: nat, n: nat)
    requires i <= n <= |b| && Tiles(b, i, |b|)
    ensures var k := Floor(b, i, n);
      && i <= k <= n && Tiles(b, i, k) && Tiles(b, k, |b|)
      && (k < n ==> CharAt(b, k, LeadWidth(b[k])) && k + LeadWidth(b[k]) > n)
      && (i < k == n ==> exists j :: i <= j < n && j + LeadWidth(b[j]) == n && CharAt(b, j, LeadWidth(b[j])))
    decreases n - i
  {
    if i < n {
      var w := LeadWidth(b[i]);
      if i + w < n {
        FloorIsBoundary(b, i + w, n);
      } else if i + w == n {
        assert CharAt(b, i, w);
      }
    }
  }

  /** The scan of `complete_utf8_end`, back from `k`. */
  function EndFrom(b: Bytes, k: nat): (e: nat)
    requires k <= |b|
    ensures e <= |b|
    decreases k
  {
    if k == 0 || k + 4 <= |b| then |b|
    else if Tail(b[k - 1]) then EndFrom(b, k - 1)
    else if LeadWidth(b[k - 1]) < 2 then |b|
    else if k - 1 + LeadWidth(b[k - 1]) > |b| then k - 1
    else |b|
  }

  function CompleteEnd(b: Bytes): (e: nat)
    ensures e <= |b|
  {
    EndFrom(b, |b|)
  }

  lemma {:induction false} EndSkipsTails(b: Bytes, j: nat, k: nat)
    requires j < k <= |b| < j + 5 && forall m :: j < m < k ==> Tail(b[m])
    ensures EndFrom(b, k) == EndFrom(b, j + 1)
    decreases k
  {
    if k > j + 1 { EndSkipsTails(b, j, k - 1); }
  }

  /** Cutting a valid text after `n` bytes leaves out exactly an unfinished last character. */
  lemma CompleteEndIsFloor(b: Bytes, n: nat)
    requires Valid(b) && 0 < n <= |b|
    ensures CompleteEnd(b[..n]) == Floor(b, 0, n)
  {
    var k := Floor(b, 0, n);
    FloorIsBoundary(b, 0, n);
    if k < n {
      CutInside(b, k, n);
    } else {
      var j :| 0 <= j < n && j + LeadWidth(b[j]) == n && CharAt(b, j, LeadWidth(b[j]));
      CutAfter(b, j, n);
    }
  }

  lemma CutInside(b: Bytes, k: nat, n: nat)
    requires k < n <= |b| && CharAt(b, k, LeadWidth(b[k])) && k + LeadWidth(b[k]) > n
    ensures CompleteEnd(b[..n]) == k
  {
    var c := b[..n];
    forall m | k < m < n ensures Tail(c[m]) {
      CharTails(b, k, LeadWidth(b[k]), m - k);
    }
    EndSkipsTails(c, k, n);
    assert c[k] == b[k];
  }

  lemma CutAfter(b: Bytes, j: nat, n: nat)
    requires j < n <= |b| && CharAt(b, j, LeadWidth(b[j])) && j + LeadWidth(b[j]) == n
    ensures CompleteEnd(b[..n]) == n
  {
    var c := b[..n];
    forall m | j < m < n ensures Tail(c[m]) {
      CharTails(b, j, LeadWidth(b[j]), m - j);
    }
    EndSkipsTails(c, j, n);
    assert c[j] == b[j];
  }

  /** A cut of at least four bytes keeps at least one character and ends on a boundary. */
  lemma CutValid(b: Bytes, n: nat)
    requires Valid(b) && 4 <= n <= |b|
    ensures var k := CompleteEnd(b[..n]);
            n - 3 <= k <= n && Valid(b[..k]) && Tiles(b, k, |b|)
  {
    CompleteEndIsFloor(b, n);
    FloorIsBoundary(b, 0, n);
    var k := Floor(b, 0, n);
    SliceValid(b, 0, k);
    assert b[0..k] == b[..k];
  }
}
