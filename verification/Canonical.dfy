/** One board for each position: the least image whose white word is the orbit's seed. */
module Canonical {
  import opened Bits
  import opened Subsets
  import opened Collapse
  import opened Symmetry
  import opened Orbits

  /** Operation i takes a's white word to its orbit's seed. */
  predicate ToSeed(g: Group, a: nat, i: nat)
    requires i < |g.ops|
  {
    g.T(i, White(g.n, a)) == Least(g, White(g.n, a))
  }

  function CanonUpTo(g: Group, a: nat, k: nat): nat
    requires k <= |g.ops|
  {
    if k == 0 then Pow2(64) - 1
    else
      var m := CanonUpTo(g, a, k - 1);
      if ToSeed(g, a, k - 1) && g.T48(k - 1, a) < m then g.T48(k - 1, a) else m
  }

  /** The canonical board of hash_probe. */
  function Canon(g: Group, a: nat): nat {
    CanonUpTo(g, a, |g.ops|)
  }

  lemma {:induction false} ShlBound(b: nat, n: nat, k: nat)
    requires b < Pow2(n)
    ensures Shl(b, k) + Pow2(k) <= Pow2(n + k)
    decreases k
  {
    if k > 0 { ShlBound(b, n, k - 1); }
  }

  /** Boards fit a 64-bit word with room to spare, so the loop's start value is never the answer. */
  lemma BoardBound(n: nat, whites: nat, blacks: nat, a: nat)
    requires n <= POINTS && IsBoard(n, whites, blacks, a)
    ensures a < Pow2(64) - 1
  {
    LowBound(a, n);
    PartsPack(n, a);
    hide Pow2, Low, Shr, Shl;
    ShlBound(Black(n, a), n, n);
    Pow2Monotone(n + n, 48);
    Pow2Strict(48, 63);
    Pow2Strict(63, 64);
  }

  lemma {:induction false} CanonUpToIsMin(g: Group, a: nat, k: nat)
    requires k <= |g.ops|
    ensures forall i: nat :: i < k && ToSeed(g, a, i) ==> CanonUpTo(g, a, k) <= g.T48(i, a)
    ensures CanonUpTo(g, a, k) == Pow2(64) - 1
            || exists i: nat :: i < k && ToSeed(g, a, i) && CanonUpTo(g, a, k) == g.T48(i, a)
    decreases k
  {
    hide Group.T48, ToSeed, Pow2;
    if k > 0 {
      CanonUpToIsMin(g, a, k - 1);
    }
  }

  /** The canonical board is an image of a with the seed as its white word, and the
      least such image. */
  lemma CanonIsLeastImage(g: Group, whites: nat, blacks: nat, a: nat) returns (op: nat)
    requires g.Valid() && g.n <= POINTS && IsBoard(g.n, whites, blacks, a)
    ensures op < |g.ops| && ToSeed(g, a, op) && Canon(g, a) == g.T48(op, a)
    ensures forall i: nat :: i < |g.ops| && ToSeed(g, a, i) ==> Canon(g, a) <= g.T48(i, a)
  {
    op := LeastIsMin(g, White(g.n, a));
    CanonUpToIsMin(g, a, |g.ops|);
    T48Board(g, op, whites, blacks, a);
    BoardBound(g.n, whites, blacks, g.T48(op, a));
    hide Group.T48, Pow2, IsBoard, Group.Valid, CanonUpTo;
    assert ToSeed(g, a, op);
    op :| op < |g.ops| && ToSeed(g, a, op) && CanonUpTo(g, a, |g.ops|) == g.T48(op, a);
  }

  /** The canonical board is a board with the same counts whose white word is a seed. */
  lemma CanonIsSeedBoard(g: Group, whites: nat, blacks: nat, a: nat)
    requires g.Valid() && g.n <= POINTS && IsBoard(g.n, whites, blacks, a)
    ensures IsBoard(g.n, whites, blacks, Canon(g, a))
    ensures White(g.n, Canon(g, a)) == Least(g, White(g.n, a))
    ensures IsSeed(g, White(g.n, Canon(g, a)))
    ensures Symmetric(g, a, Canon(g, a))
  {
    var op := CanonIsLeastImage(g, whites, blacks, a);
    T48Board(g, op, whites, blacks, a);
    T48Parts(g, op, a);
    LowBound(a, g.n);
    LeastInvariant(g, op, White(g.n, a));
  }

  /** No presentation of a reaches a smaller canonical board than a itself. */
  lemma CanonNotAbove(g: Group, whites: nat, blacks: nat, a: nat, j: nat)
    requires g.Valid() && g.n <= POINTS && IsBoard(g.n, whites, blacks, a) && j < |g.ops|
    ensures Canon(g, a) <= Canon(g, g.T48(j, a))
  {
    var b := g.T48(j, a);
    T48Board(g, j, whites, blacks, a);
    T48Parts(g, j, a);
    LowBound(a, g.n);
    LeastInvariant(g, j, White(g.n, a));
    var i := CanonIsLeastImage(g, whites, blacks, b);
    var k := Mul(g, i, j);
    T48Compose(g, k, i, j, a);
    TCompose(g, k, i, j, White(g.n, a));
    assert ToSeed(g, a, k);
    var op := CanonIsLeastImage(g, whites, blacks, a);
  }

  /** All presentations of a position have one canonical board. */
  lemma CanonInvariant(g: Group, whites: nat, blacks: nat, a: nat, j: nat)
    requires g.Valid() && g.n <= POINTS && IsBoard(g.n, whites, blacks, a) && j < |g.ops|
    ensures Canon(g, g.T48(j, a)) == Canon(g, a)
  {
    CanonNotAbove(g, whites, blacks, a, j);
    T48Board(g, j, whites, blacks, a);
    T48Inverse(g, j, a);
    CanonNotAbove(g, whites, blacks, g.T48(j, a), g.inv[j]);
  }

  /** Two boards have the same canonical board exactly when one is a presentation of the other. */
  lemma CanonCharacterises(g: Group, whites: nat, blacks: nat, a: nat, b: nat)
    requires g.Valid() && g.n <= POINTS && IsBoard(g.n, whites, blacks, a) && IsBoard(g.n, whites, blacks, b)
    ensures Canon(g, a) == Canon(g, b) <==> Symmetric(g, a, b)
  {
    if Symmetric(g, a, b) {
      var j: nat :| j < |g.ops| && b == g.T48(j, a);
      CanonInvariant(g, whites, blacks, a, j);
    }
    if Canon(g, a) == Canon(g, b) {
      var i := CanonIsLeastImage(g, whites, blacks, a);
      var j := CanonIsLeastImage(g, whites, blacks, b);
      T48Inverse(g, j, b);
      T48Compose(g, Mul(g, g.inv[j], i), g.inv[j], i, a);
    }
  }

  // ---------------------------------------------------------------- the probe index

  /** The index hash_probe returns. */
  function ProbeIndex(g: Group, whites: nat, blacks: nat, a: nat): nat
    requires g.Valid() && whites <= g.n <= POINTS && IsBoard(g.n, whites, blacks, a)
  {
    CanonIsSeedBoard(g, whites, blacks, a);
    DirectIndex(g, whites, blacks, Canon(g, a))
  }

  /** The index is in range, and reading it back gives the canonical board. */
  lemma ProbeRoundTrip(g: Group, whites: nat, blacks: nat, a: nat)
    requires g.Valid() && whites <= g.n <= POINTS && IsBoard(g.n, whites, blacks, a)
    ensures ProbeIndex(g, whites, blacks, a) < HashCount(g, whites, blacks)
    ensures InverseBoard(g, whites, blacks, ProbeIndex(g, whites, blacks, a)) == Canon(g, a)
  {
    CanonIsSeedBoard(g, whites, blacks, a);
    InverseOfDirect(g, whites, blacks, Canon(g, a));
  }

  /** The index is a complete invariant: equal exactly for symmetric boards. */
  lemma ProbeIndexCharacterises(g: Group, whites: nat, blacks: nat, a: nat, b: nat)
    requires g.Valid() && whites <= g.n <= POINTS
    requires IsBoard(g.n, whites, blacks, a) && IsBoard(g.n, whites, blacks, b)
    ensures ProbeIndex(g, whites, blacks, a) == ProbeIndex(g, whites, blacks, b) <==> Symmetric(g, a, b)
  {
    ProbeRoundTrip(g, whites, blacks, a);
    ProbeRoundTrip(g, whites, blacks, b);
    CanonCharacterises(g, whites, blacks, a, b);
  }
}
