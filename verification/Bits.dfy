/** Bitwise operations on naturals, defined digit by digit, and what they do to each bit. */
module Bits {
  predicate Bit(x: nat, i: nat)
    decreases i
  {
    if i == 0 then x % 2 == 1 else Bit(x / 2, i - 1)
  }

  function Shl(x: nat, n: nat): nat {
    if n == 0 then x else 2 * Shl(x, n - 1)
  }

  function Shr(x: nat, n: nat): nat
    decreases n
  {
    if n == 0 then x else Shr(x / 2, n - 1)
  }

  function Or(a: nat, b: nat): nat {
    if a == 0 then b else if b == 0 then a
    else 2 * Or(a / 2, b / 2) + if a % 2 == 1 || b % 2 == 1 then 1 else 0
  }

  function And(a: nat, b: nat): nat {
    if a == 0 || b == 0 then 0
    else 2 * And(a / 2, b / 2) + if a % 2 == 1 && b % 2 == 1 then 1 else 0
  }

  function Xor(a: nat, b: nat): nat {
    if a == 0 then b else if b == 0 then a
    else 2 * Xor(a / 2, b / 2) + if a % 2 != b % 2 then 1 else 0
  }

  function Pow2(n: nat): (p: nat)
    ensures p >= 1
  {
    if n == 0 then 1 else 2 * Pow2(n - 1)
  }

  lemma {:induction false} BitShl(x: nat, n: nat, j: nat)
    ensures Bit(Shl(x, n), j) <==> j >= n && Bit(x, j - n)
    decreases n
  {
    if n > 0 {
      assert Shl(x, n) / 2 == Shl(x, n - 1) && Shl(x, n) % 2 == 0;
      if j > 0 { BitShl(x, n - 1, j - 1); }
    }
  }

  lemma {:induction false} BitShr(x: nat, n: nat, j: nat)
    ensures Bit(Shr(x, n), j) == Bit(x, j + n)
    decreases n
  {
    if n > 0 { BitShr(x / 2, n - 1, j); }
  }

  lemma BitHalf(x: nat, j: nat)
    ensures Bit(x / 2, j) == Bit(x, j + 1)
  {
  }

  /** Taking away a higher power of two keeps the low bits. */
  lemma {:induction false} BitLow(x: nat, n: nat, j: nat)
    requires j < n && Pow2(n) <= x
    ensures Bit(x - Pow2(n), j) == Bit(x, j)
    decreases n
  {
    var p := Pow2(n - 1);
    assert Pow2(n) == 2 * p;
    assert (x - 2 * p) / 2 == x / 2 - p && (x - 2 * p) % 2 == x % 2;
    if j > 0 { BitLow(x / 2, n - 1, j - 1); }
  }

  lemma {:induction false} BitZero(j: nat)
    ensures !Bit(0, j)
    decreases j
  {
    if j > 0 { BitZero(j - 1); }
  }

  lemma {:induction false} BitOr(a: nat, b: nat, j: nat)
    ensures Bit(Or(a, b), j) <==> Bit(a, j) || Bit(b, j)
    decreases j
  {
    if a == 0 || b == 0 {
      BitZero(j);
    } else if j > 0 {
      BitOr(a / 2, b / 2, j - 1);
    }
  }

  lemma {:induction false} BitAnd(a: nat, b: nat, j: nat)
    ensures Bit(And(a, b), j) <==> Bit(a, j) && Bit(b, j)
    decreases j
  {
    if a == 0 || b == 0 {
      BitZero(j);
    } else if j > 0 {
      BitAnd(a / 2, b / 2, j - 1);
    }
  }

  lemma {:induction false} BitXor(a: nat, b: nat, j: nat)
    ensures Bit(Xor(a, b), j) <==> Bit(a, j) != Bit(b, j)
    decreases j
  {
    if a == 0 || b == 0 {
      BitZero(j);
    } else if j > 0 {
      BitXor(a / 2, b / 2, j - 1);
    }
  }

  /** The low `n` bits set. */
  lemma {:induction false} BitMask(n: nat, j: nat)
    ensures Bit(Pow2(n) - 1, j) <==> j < n
    decreases n
  {
    if n == 0 {
      BitZero(j);
    } else {
      var p := Pow2(n - 1);
      assert Pow2(n) == 2 * p;
      hide Pow2;
      assert (2 * p - 1) / 2 == p - 1 && (2 * p - 1) % 2 == 1;
      if j > 0 { BitMask(n - 1, j - 1); }
    }
  }

  lemma {:induction false} ShlBound(x: nat, m: nat, n: nat)
    requires x < Pow2(m)
    ensures Shl(x, n) < Pow2(m + n)
    decreases n
  {
    if n > 0 { ShlBound(x, m, n - 1); }
  }

  lemma {:induction false} OrBound(a: nat, b: nat, n: nat)
    requires a < Pow2(n) && b < Pow2(n)
    ensures Or(a, b) < Pow2(n)
    decreases n
  {
    if a != 0 && b != 0 { OrBound(a / 2, b / 2, n - 1); }
  }

  lemma {:induction false} XorBound(a: nat, b: nat, n: nat)
    requires a < Pow2(n) && b < Pow2(n)
    ensures Xor(a, b) < Pow2(n)
    decreases n
  {
    if a != 0 && b != 0 { XorBound(a / 2, b / 2, n - 1); }
  }

  /** Taking from all ones flips every bit. */
  lemma {:induction false} BitComplement(x: nat, n: nat, j: nat)
    requires x < Pow2(n) && j < n
    ensures Bit(Pow2(n) - 1 - x, j) <==> !Bit(x, j)
    decreases n
  {
    var p, y := Pow2(n - 1), x / 2;
    assert Pow2(n) == 2 * p;
    assert (2 * p - 1 - x) / 2 == p - 1 - y && ((2 * p - 1 - x) % 2 == 1 <==> x % 2 == 0);
    if j > 0 { BitComplement(y, n - 1, j - 1); }
  }

  lemma {:induction false} AndBound(a: nat, b: nat)
    ensures And(a, b) <= b
  {
    if a != 0 && b != 0 { AndBound(a / 2, b / 2); }
  }

  lemma {:induction false} Pow2Mono(m: nat, n: nat)
    requires m <= n
    ensures 1 <= Pow2(m) <= Pow2(n)
    decreases n
  {
    if m < n {
      Pow2Mono(m, n - 1);
    } else if n > 0 {
      Pow2Mono(n - 1, n - 1);
    }
  }

  lemma Pow2Values()
    ensures Pow2(8) == 256 && Pow2(32) == 0x1_0000_0000 && Pow2(40) == 0x100_0000_0000 && Pow2(64) == 0x1_0000_0000_0000_0000
  {
    assert Pow2(4) == 16;
    assert Pow2(8) == 256;
    assert Pow2(12) == 0x1000;
    assert Pow2(16) == 0x1_0000;
    assert Pow2(20) == 0x10_0000;
    assert Pow2(24) == 0x100_0000;
    assert Pow2(28) == 0x1000_0000;
    assert Pow2(32) == 0x1_0000_0000;
    assert Pow2(36) == 0x10_0000_0000;
    assert Pow2(40) == 0x100_0000_0000;
    assert Pow2(44) == 0x1000_0000_0000;
    assert Pow2(48) == 0x1_0000_0000_0000;
    assert Pow2(52) == 0x10_0000_0000_0000;
    assert Pow2(56) == 0x100_0000_0000_0000;
    assert Pow2(60) == 0x1000_0000_0000_0000;
  }

  lemma {:induction false} BitHigh(x: nat, n: nat, j: nat)
    requires x < Pow2(n) && n <= j
    ensures !Bit(x, j)
    decreases n
  {
    if n == 0 {
      BitZero(j);
    } else {
      BitHigh(x / 2, n - 1, j - 1);
    }
  }

  /** A number is determined by its bits. */
  lemma {:induction false} BitsDetermine(a: nat, b: nat)
    requires forall j: nat :: Bit(a, j) == Bit(b, j)
    ensures a == b
    decreases a + b
  {
    assert Bit(a, 0) == Bit(b, 0);
    if a != 0 || b != 0 {
      forall j: nat ensures Bit(a / 2, j) == Bit(b / 2, j) {
        assert Bit(a, j + 1) == Bit(b, j + 1);
      }
      BitsDetermine(a / 2, b / 2);
    }
  }
}
