/** Definitions several components share. */
module Basics {
  type Byte = x: int | 0 <= x < 256

  type Bytes = seq<Byte>

  datatype Option<T> = None | Some(value: T)

  datatype Result<T, E> = Ok(value: T) | Err(error: E)

  function Concat(parts: seq<Bytes>): Bytes {
    if parts == [] then [] else Concat(parts[..|parts| - 1]) + parts[|parts| - 1]
  }

  lemma {:induction false} ConcatFront(c: Bytes, parts: seq<Bytes>)
    ensures Concat([c] + parts) == c + Concat(parts)
    decreases |parts|
  {
    if parts == [] {
      assert [c] + parts == [c] && [c][..0] == [];
    } else {
      var n := |parts| - 1;
      assert ([c] + parts)[..n + 1] == [c] + parts[..n];
      ConcatFront(c, parts[..n]);
    }
  }

  /** Time from `at` to `now`; a clock that lags counts as no time. */
  function Elapsed(now: nat, at: nat): nat {
    if now >= at then now - at else 0
  }

  // ---------------------------------------------------------------- lists and sets

  predicate Unique<T(==)>(s: seq<T>) {
    forall i, j :: 0 <= i < j < |s| ==> s[i] != s[j]
  }

  function Members<T>(s: seq<T>): set<T> { set x | x in s }

  lemma {:induction false} MembersSize<T>(s: seq<T>)
    ensures |Members(s)| <= |s|
    ensures Unique(s) ==> |Members(s)| == |s|
    decreases |s|
  {
    if s != [] {
      var init, last := s[..|s| - 1], s[|s| - 1];
      MembersSize(init);
      assert s == init + [last];
      assert Members(s) == Members(init) + {last};
    }
  }

  lemma SubsetSize<T>(a: set<T>, b: set<T>)
    requires a <= b
    ensures |a| <= |b|
    ensures |a| == |b| ==> a == b
  {
    assert b == a + (b - a);
  }

  // ----------------------------------------------------------------- order of texts

  /** The order of texts by their first difference; a proper prefix comes first. */
  predicate Before(a: string, b: string)
    decreases |a|
  {
    b != [] && (a == [] || a[0] < b[0] || (a[0] == b[0] && Before(a[1..], b[1..])))
  }

  lemma {:induction false} BeforeTotal(a: string, b: string)
    ensures a == b || Before(a, b) || Before(b, a)
    ensures Before(a, b) ==> !Before(b, a) && a != b
    decreases |a|
  {
    if a != [] && b != [] && a[0] == b[0] {
      BeforeTotal(a[1..], b[1..]);
      assert a == [a[0]] + a[1..] && b == [b[0]] + b[1..];
    }
  }

  lemma {:induction false} BeforeTransitive(a: string, b: string, c: string)
    requires Before(a, b) && Before(b, c)
    ensures Before(a, c)
    decreases |a|
  {
    if a != [] && a[0] == b[0] == c[0] {
      BeforeTransitive(a[1..], b[1..], c[1..]);
    }
  }
}
