/** Machine words as natural numbers: the bit operators the engine uses, defined
    by recursion on the least significant bit, and the facts the other modules need. */
module Bits {

  function Pow2(k: nat): (p: nat)
    ensures p >= 1
  {
    if k == 0 then 1 else 2 * Pow2(k - 1)
  }

  predicate Bit(x: nat, i: nat) {
    if i == 0 then x % 2 == 1 else Bit(x / 2, i - 1)
  }

  /** Population count. */
  function Ones(x: nat): nat {
    if x == 0 then 0 else x % 2 + Ones(x / 2)
  }

  function And(x: nat, y: nat): nat {
    if x == 0 || y == 0 then 0 else 2 * And(x / 2, y / 2) + (x % 2) * (y % 2)
  }

  function Or(x: nat, y: nat): nat
    decreases x + y
  {
    if x == 0 then y else if y == 0 then x
    else 2 * Or(x / 2, y / 2) + (if x % 2 == 1 || y % 2 == 1 then 1 else 0)
  }

  function Xor(x: nat, y: nat): nat
    decreases x + y
  {
    if x == 0 then y else if y == 0 then x
    else 2 * Xor(x / 2, y / 2) + (if x % 2 != y % 2 then 1 else 0)
  }

  function Shr(x: nat, k: nat): nat
    decreases k
  {
    if k == 0 then x else Shr(x / 2, k - 1)
  }

  function Shl(x: nat, k: nat): nat {
    if k == 0 then x else 2 * Shl(x, k - 1)
  }

  /** The k low bits of x, as masking with 2^k - 1. */
  function Low(x: nat, k: nat): nat {
    if k == 0 then 0 else x % 2 + 2 * Low(x / 2, k - 1)
  }

  // ---------------------------------------------------------------- powers of two

  lemma Pow2Monotone(i: nat, j: nat)
    requires i <= j
    ensures Pow2(i) <= Pow2(j)
    decreases j - i
  {
    if i < j {
      Pow2Monotone(i, j - 1);
    }
  }

  lemma Pow2Strict(i: nat, j: nat)
    requires i < j
    ensures Pow2(i) < Pow2(j)
  {
    Pow2Monotone(i, j - 1);
  }

  // ---------------------------------------------------------------- single bits

  lemma {:induction false} BitsDetermine(x: nat, y: nat)
    requires forall i: nat :: Bit(x, i) == Bit(y, i)
    ensures x == y
    decreases x + y
  {
    if x > 0 || y > 0 {
      assert Bit(x, 0) == Bit(y, 0);
      forall i: nat ensures Bit(x / 2, i) == Bit(y / 2, i) {
        assert Bit(x, i + 1) == Bit(y, i + 1);
      }
      BitsDetermine(x / 2, y / 2);
    }
  }

  /** Words of n bits are determined by their n low bits. */
  lemma BitsDetermineBelow(x: nat, y: nat, n: nat)
    requires x < Pow2(n) && y < Pow2(n)
    requires forall i: nat :: i < n ==> Bit(x, i) == Bit(y, i)
    ensures x == y
  {
    forall i: nat ensures Bit(x, i) == Bit(y, i) {
      if i >= n {
        BitAbove(x, n, i);
        BitAbove(y, n, i);
      }
    }
    BitsDetermine(x, y);
  }

  lemma {:induction false} BitAbove(x: nat, n: nat, i: nat)
    requires x < Pow2(n) && n <= i
    ensures !Bit(x, i)
    decreases i
  {
    if i > 0 {
      BitAbove(x / 2, if n == 0 then 0 else n - 1, i - 1);
    }
  }

  lemma {:induction false} NoBitsAbove(x: nat, n: nat)
    requires forall i: nat :: n <= i ==> !Bit(x, i)
    ensures x < Pow2(n)
    decreases n
  {
    if n == 0 {
      forall i: nat ensures Bit(x, i) == Bit(0, i) { ZeroBit(i); }
      BitsDetermine(x, 0);
    } else {
      forall i: nat | n - 1 <= i ensures !Bit(x / 2, i) {
        assert !Bit(x, i + 1);
      }
      NoBitsAbove(x / 2, n - 1);
    }
  }

  lemma {:induction false} ZeroBit(i: nat)
    ensures !Bit(0, i)
    decreases i
  {
    if i > 0 { ZeroBit(i - 1); }
  }

  lemma {:induction false} Pow2Bit(k: nat, i: nat)
    ensures Bit(Pow2(k), i) <==> i == k
    decreases k + i
  {
    if i > 0 {
      if k == 0 { ZeroBit(i - 1); } else { Pow2Bit(k - 1, i - 1); }
    }
  }

  lemma {:induction false} AndBit(x: nat, y: nat, i: nat)
    ensures Bit(And(x, y), i) <==> Bit(x, i) && Bit(y, i)
    decreases i
  {
    if x == 0 || y == 0 {
      ZeroBit(i);
    } else if i > 0 {
      assert And(x, y) / 2 == And(x / 2, y / 2);
      AndBit(x / 2, y / 2, i - 1);
    }
  }

  lemma {:induction false} AndCommutes(x: nat, y: nat)
    ensures And(x, y) == And(y, x)
  {
    if x > 0 && y > 0 {
      AndCommutes(x / 2, y / 2);
      assert (x % 2) * (y % 2) == (y % 2) * (x % 2);
    }
  }

  lemma {:induction false} AndAtMost(x: nat, y: nat)
    ensures And(x, y) <= y
  {
    if x > 0 && y > 0 {
      AndAtMost(x / 2, y / 2);
      assert (x % 2) * (y % 2) <= y % 2;
    }
  }

  /** The defining equations of And, Or and Xor without their shortcuts for zero operands. */
  lemma AndStep(x: nat, y: nat)
    ensures And(x, y) == 2 * And(x / 2, y / 2) + (if x % 2 == 1 && y % 2 == 1 then 1 else 0)
  {
    BitProduct(x % 2, y % 2);
  }

  lemma BitProduct(a: nat, b: nat)
    requires a < 2 && b < 2
    ensures a * b == if a == 1 && b == 1 then 1 else 0
  {
    if a == 0 { assert a * b == 0; } else { assert a * b == b; }
  }

  lemma OrStep(x: nat, y: nat)
    ensures Or(x, y) / 2 == Or(x / 2, y / 2)
    ensures Or(x, y) % 2 == 1 <==> x % 2 == 1 || y % 2 == 1
  {}

  lemma XorStep(x: nat, y: nat)
    ensures Xor(x, y) / 2 == Xor(x / 2, y / 2)
    ensures Xor(x, y) % 2 == 1 <==> x % 2 != y % 2
  {}

  lemma {:induction false} OrBit(x: nat, y: nat, i: nat)
    ensures Bit(Or(x, y), i) <==> Bit(x, i) || Bit(y, i)
    decreases i
  {
    hide Or;
    OrStep(x, y);
    if i > 0 { OrBit(x / 2, y / 2, i - 1); }
  }

  lemma {:induction false} XorBit(x: nat, y: nat, i: nat)
    ensures Bit(Xor(x, y), i) <==> Bit(x, i) != Bit(y, i)
    decreases i
  {
    hide Xor;
    XorStep(x, y);
    if i > 0 { XorBit(x / 2, y / 2, i - 1); }
  }

  lemma DivUnique(x: nat, d: nat, q: nat, r: nat)
    requires d > 0 && r < d && x == q * d + r
    ensures x / d == q && x % d == r
  {
    assert x == (x / d) * d + x % d;
    assert (x / d - q) * d == r - x % d;
    MultipleIsZero(x / d - q, d);
  }

  lemma MultipleIsZero(e: int, d: int)
    requires d > 0 && -d < e * d < d
    ensures e == 0
  {}

  lemma {:induction false} ShrBit(x: nat, k: nat, i: nat)
    ensures Bit(Shr(x, k), i) == Bit(x, i + k)
    decreases k
  {
    if k > 0 { ShrBit(x / 2, k - 1, i); }
  }

  lemma {:induction false} ShlBit(x: nat, k: nat, i: nat)
    ensures Bit(Shl(x, k), i) <==> i >= k && Bit(x, i - k)
    decreases k
  {
    if k > 0 && i > 0 {
      assert Shl(x, k) / 2 == Shl(x, k - 1);
      ShlBit(x, k - 1, i - 1);
    }
  }

  /** Complementing a k-bit word flips every one of its bits. */
  lemma {:induction false} NotBit(x: nat, k: nat, i: nat)
    requires x < Pow2(k) && i < k
    ensures Bit(Pow2(k) - 1 - x, i) <==> !Bit(x, i)
    decreases k
  {
    assert (Pow2(k) - 1 - x) / 2 == Pow2(k - 1) - 1 - x / 2 && (Pow2(k) - 1 - x) % 2 == 1 - x % 2;
    if i > 0 { NotBit(x / 2, k - 1, i - 1); }
  }

  lemma {:induction false} LowBit(x: nat, k: nat, i: nat)
    ensures Bit(Low(x, k), i) <==> i < k && Bit(x, i)
    decreases k
  {
    if k == 0 {
      ZeroBit(i);
    } else {
      assert Low(x, k) / 2 == Low(x / 2, k - 1) && Low(x, k) % 2 == x % 2;
      if i > 0 { LowBit(x / 2, k - 1, i - 1); }
    }
  }

  lemma {:induction false} LowBound(x: nat, k: nat)
    ensures Low(x, k) < Pow2(k)
    decreases k
  {
    if k > 0 { LowBound(x / 2, k - 1); }
  }

  lemma {:induction false} ShrStep(x: nat, k: nat)
    ensures Shr(x, k + 1) == Shr(x, k) / 2
    decreases k
  {
    if k > 0 { ShrStep(x / 2, k - 1); }
  }

  lemma {:induction false} ShlPlusOne(q: nat, k: nat)
    ensures Shl(q + 1, k) == Shl(q, k) + Pow2(k)
  {
    if k > 0 { ShlPlusOne(q, k - 1); }
  }

  lemma {:induction false} ShlOfDouble(q: nat, k: nat)
    ensures Shl(q, k + 1) == Shl(2 * q, k)
  {
    if k > 0 { ShlOfDouble(q, k - 1); }
  }

  lemma {:induction false} ShlZero(k: nat)
    ensures Shl(0, k) == 0
  {
    if k > 0 { ShlZero(k - 1); }
  }

  lemma ShlOne(k: nat)
    ensures Shl(1, k) == Pow2(k)
  {
    ShlPlusOne(0, k);
    ShlZero(k);
  }

  /** Dividing by a power of two is shifting. */
  lemma {:induction false} DivIsShr(x: nat, k: nat)
    ensures x / Pow2(k) == Shr(x, k)
    decreases k
  {
    if k > 0 {
      DivIsShr(x / 2, k - 1);
      DivTwice(x, Pow2(k - 1));
    }
  }

  lemma DivTwice(x: nat, p: nat)
    requires p > 0
    ensures x / (2 * p) == x / 2 / p
  {
    var q, r := x / 2 / p, (x / 2) % p;
    assert x / 2 == q * p + r;
    assert q * (2 * p) == 2 * (q * p);
    DivUnique(x, 2 * p, q, 2 * r + x % 2);
  }

  /** Masking with one bit. */
  lemma {:induction false} MaskBit(x: nat, k: nat)
    ensures And(x, Pow2(k)) == (if Bit(x, k) then Pow2(k) else 0)
    decreases k
  {
    if x == 0 {
      ZeroBit(k);
    } else if k > 0 {
      assert Pow2(k) / 2 == Pow2(k - 1) && Pow2(k) % 2 == 0;
      MaskBit(x / 2, k - 1);
    } else {
      assert And(x / 2, 0) == 0;
    }
  }

  // ---------------------------------------------------------------- counting bits

  lemma {:induction false} OnesSplit(hi: nat, lo: nat, k: nat)
    requires lo < Pow2(k)
    ensures Ones(Shl(hi, k) + lo) == Ones(hi) + Ones(lo)
    decreases k
  {
    if k > 0 {
      OnesSplit(hi, lo / 2, k - 1);
      OnesStep(Shl(hi, k) + lo);
      OnesStep(lo);
      assert (Shl(hi, k) + lo) / 2 == Shl(hi, k - 1) + lo / 2;
    }
  }

  lemma OnesStep(x: nat)
    ensures Ones(x) == x % 2 + Ones(x / 2)
  {}

  lemma {:induction false} OnesOfSetBit(x: nat, i: nat)
    ensures Ones(Or(x, Pow2(i))) == Ones(x) + (if Bit(x, i) then 0 else 1)
    decreases i
  {
    if x == 0 {
      ZeroBit(i);
      OnesOfPow2(i);
    } else if i == 0 {
      assert Pow2(i) == 1;
      assert Or(x / 2, 0) == x / 2;
      assert Or(x, 1) / 2 == x / 2;
    } else {
      assert Or(x, Pow2(i)) / 2 == Or(x / 2, Pow2(i - 1));
      OnesOfSetBit(x / 2, i - 1);
    }
  }

  lemma {:induction false} OnesOfPow2(i: nat)
    ensures Ones(Pow2(i)) == 1
    decreases i
  {
    if i > 0 {
      assert Pow2(i) / 2 == Pow2(i - 1);
      OnesOfPow2(i - 1);
    }
  }

  /** A word with j one bits is at least 2^j - 1. */
  lemma {:induction false} OnesLowerBound(x: nat)
    ensures x + 1 >= Pow2(Ones(x))
    decreases x
  {
    if x > 0 { OnesLowerBound(x / 2); }
  }

  /** A k-bit word with m one bits is at most m ones followed by zeros. */
  lemma {:induction false} OnesUpperBound(x: nat, k: nat)
    requires x < Pow2(k)
    ensures Ones(x) <= k && x + Pow2(k - Ones(x)) <= Pow2(k)
    decreases k
  {
    if k > 0 {
      OnesUpperBound(x / 2, k - 1);
      var m := Ones(x / 2);
      assert Ones(x) == x % 2 + m;
      if x % 2 == 1 {
        assert Pow2(k - 1 - m) >= 1;
      } else {
        assert Pow2(k - m) == 2 * Pow2(k - 1 - m);
      }
    }
  }

  lemma {:induction false} OrBelow(x: nat, y: nat, n: nat)
    requires x < Pow2(n) && y < Pow2(n)
    ensures Or(x, y) < Pow2(n)
  {
    forall i: nat | n <= i ensures !Bit(Or(x, y), i) {
      OrBit(x, y, i);
      BitAbove(x, n, i);
      BitAbove(y, n, i);
    }
    NoBitsAbove(Or(x, y), n);
  }

  /** Or-ing a word shifted up past another is addition. */
  lemma {:induction false} OrIsSum(hi: nat, lo: nat, k: nat)
    requires lo < Pow2(k)
    ensures Or(lo, Shl(hi, k)) == Shl(hi, k) + lo
    decreases k
  {
    if k > 0 {
      OrIsSum(hi, lo / 2, k - 1);
      OrStep(lo, Shl(hi, k));
    }
  }
}
