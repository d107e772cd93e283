/** Finite groups of point permutations acting on board words, for any board width. */
module Symmetry {
  import opened Bits
  import opened Collapse

  /** The loop `for source, target in permutation: if bits & (1 << source) ...`
      after its first k rounds. */
  function TransformUpTo(p: seq<nat>, w: nat, k: nat): nat
    requires k <= |p|
  {
    if k == 0 then 0
    else
      var t := TransformUpTo(p, w, k - 1);
      if Bit(w, k - 1) then Or(t, Pow2(p[k - 1])) else t
  }

  function Transform(p: seq<nat>, w: nat): nat {
    TransformUpTo(p, w, |p|)
  }

  /** transform24 and _transform_bits: the loop itself. */
  method TransformLoop(p: seq<nat>, bits: nat) returns (result: nat)
    ensures result == Transform(p, bits)
  {
    result := 0;
    for index := 0 to |p|
      invariant result == TransformUpTo(p, bits, index)
    {
      MaskBit(bits, index);
      if And(bits, Pow2(index)) != 0 {
        result := Or(result, Pow2(p[index]));
      }
    }
  }

  ghost predicate MutuallyInverse(p: seq<nat>, q: seq<nat>, n: nat) {
    && |p| == |q| == n
    && (forall i :: 0 <= i < n ==> p[i] < n && q[p[i]] == i)
    && (forall i :: 0 <= i < n ==> q[i] < n && p[q[i]] == i)
  }

  lemma {:induction false} TransformUpToBit(p: seq<nat>, q: seq<nat>, n: nat, w: nat, k: nat, j: nat)
    requires MutuallyInverse(p, q, n) && k <= n
    ensures Bit(TransformUpTo(p, w, k), j) <==> j < n && q[j] < k && Bit(w, q[j])
    decreases k
  {
    if k == 0 {
      ZeroBit(j);
    } else {
      TransformUpToBit(p, q, n, w, k - 1, j);
      OrBit(TransformUpTo(p, w, k - 1), Pow2(p[k - 1]), j);
      Pow2Bit(p[k - 1], j);
    }
  }

  /** Bit j of the image is the bit of the preimage of point j. */
  lemma TransformBit(p: seq<nat>, q: seq<nat>, n: nat, w: nat, j: nat)
    requires MutuallyInverse(p, q, n)
    ensures Bit(Transform(p, w), j) <==> j < n && Bit(w, q[j])
  {
    TransformUpToBit(p, q, n, w, n, j);
  }

  lemma TransformBound(p: seq<nat>, q: seq<nat>, n: nat, w: nat)
    requires MutuallyInverse(p, q, n)
    ensures Transform(p, w) < Pow2(n)
  {
    forall j: nat | n <= j ensures !Bit(Transform(p, w), j) {
      TransformBit(p, q, n, w, j);
    }
    NoBitsAbove(Transform(p, w), n);
  }

  lemma {:induction false} OnesOfLow(w: nat, k: nat)
    ensures Ones(Low(w, k + 1)) == Ones(Low(w, k)) + (if Bit(w, k) then 1 else 0)
    decreases k
  {
    hide Low, Ones;
    LowStep(w, k);
    OnesAppend(Low(w / 2, k), w % 2);
    if k == 0 {
      LowOfNothing(w);
    } else {
      LowStep(w, k - 1);
      OnesOfLow(w / 2, k - 1);
      OnesAppend(Low(w / 2, k - 1), w % 2);
    }
  }

  lemma LowOfNothing(w: nat)
    ensures Low(w, 0) == 0 && Low(w / 2, 0) == 0 && Ones(0) == 0
  {}

  lemma LowStep(w: nat, k: nat)
    ensures Low(w, k + 1) == w % 2 + 2 * Low(w / 2, k)
  {}

  lemma OnesAppend(x: nat, d: nat)
    requires d < 2
    ensures Ones(d + 2 * x) == d + Ones(x)
  {}

  lemma {:induction false} LowOfWord(w: nat, n: nat)
    requires w < Pow2(n)
    ensures Low(w, n) == w
    decreases n
  {
    if n > 0 { LowOfWord(w / 2, n - 1); }
  }

  /** Permuting the points keeps the number of stones. */
  lemma TransformOnes(p: seq<nat>, q: seq<nat>, n: nat, w: nat)
    requires MutuallyInverse(p, q, n) && w < Pow2(n)
    ensures Ones(Transform(p, w)) == Ones(w)
  {
    LowOfWord(w, n);
    for k := 0 to n
      invariant Ones(TransformUpTo(p, w, k)) == Ones(Low(w, k))
    {
      OnesOfLow(w, k);
      TransformUpToBit(p, q, n, w, k, p[k]);
      OnesOfSetBit(TransformUpTo(p, w, k), p[k]);
    }
  }

  // ---------------------------------------------------------------- groups

  /** ops lists the permutations of n points, inv the position of each one's inverse,
      id the position of the identity. */
  datatype Group = Group(n: nat, ops: seq<seq<nat>>, inv: seq<nat>, id: nat) {

    ghost predicate Valid()
      ensures Valid() ==> 0 < |ops| == |inv| && id < |ops|
    {
      && |inv| == |ops| && id < |ops|
      && (forall i :: 0 <= i < |ops| ==> inv[i] < |ops| && inv[inv[i]] == i)
      && (forall i :: 0 <= i < |ops| ==> MutuallyInverse(ops[i], ops[inv[i]], n))
      && |ops[id]| == n && (forall x :: 0 <= x < n ==> ops[id][x] == x)
      && (forall i: nat, j: nat :: i < |ops| && j < |ops| ==> Closed(i, j))
    }

    /** Operation k is operation j followed by operation i. */
    ghost predicate Composes(k: nat, i: nat, j: nat) {
      && i < |ops| && j < |ops| && k < |ops|
      && |ops[i]| == |ops[j]| == |ops[k]| == n
      && forall x :: 0 <= x < n ==> ops[j][x] < n && ops[k][x] == ops[i][ops[j][x]]
    }

    ghost predicate Closed(i: nat, j: nat) {
      exists k: nat :: Composes(k, i, j)
    }

    /** The requirement the index construction puts on the table of operations. */
    ghost predicate IdentityLast() {
      id == |ops| - 1
    }

    /** sym24_transform. */
    function T(i: nat, w: nat): nat
      requires i < |ops|
    {
      Transform(ops[i], w)
    }

    /** sym48_transform. */
    function T48(i: nat, a: nat): nat
      requires i < |ops|
    {
      Pack(n, T(i, White(n, a)), T(i, Black(n, a)))
    }
  }

  ghost function Mul(g: Group, i: nat, j: nat): (k: nat)
    requires g.Valid() && i < |g.ops| && j < |g.ops|
    ensures g.Composes(k, i, j)
  {
    assert g.Closed(i, j);
    var k: nat :| g.Composes(k, i, j);
    k
  }

  lemma TBit(g: Group, i: nat, w: nat, j: nat)
    requires g.Valid() && i < |g.ops|
    ensures Bit(g.T(i, w), j) <==> j < g.n && Bit(w, g.ops[g.inv[i]][j])
  {
    TransformBit(g.ops[i], g.ops[g.inv[i]], g.n, w, j);
  }

  lemma TFacts(g: Group, i: nat, w: nat)
    requires g.Valid() && i < |g.ops|
    ensures g.T(i, w) < Pow2(g.n)
    ensures w < Pow2(g.n) ==> Ones(g.T(i, w)) == Ones(w)
  {
    TransformBound(g.ops[i], g.ops[g.inv[i]], g.n, w);
    if w < Pow2(g.n) {
      TransformOnes(g.ops[i], g.ops[g.inv[i]], g.n, w);
    }
  }

  lemma TCompose(g: Group, k: nat, i: nat, j: nat, w: nat)
    requires g.Valid() && g.Composes(k, i, j)
    ensures g.T(i, g.T(j, w)) == g.T(k, w)
  {
    var qi, qj, qk := g.ops[g.inv[i]], g.ops[g.inv[j]], g.ops[g.inv[k]];
    forall x: nat ensures Bit(g.T(i, g.T(j, w)), x) == Bit(g.T(k, w), x) {
      TBit(g, i, g.T(j, w), x);
      TBit(g, k, w, x);
      if x < g.n {
        TBit(g, j, w, qi[x]);
        assert g.ops[k][qj[qi[x]]] == x;
      }
    }
    BitsDetermine(g.T(i, g.T(j, w)), g.T(k, w));
  }

  lemma TIdentity(g: Group, w: nat)
    requires g.Valid() && w < Pow2(g.n)
    ensures g.T(g.id, w) == w
  {
    TFacts(g, g.id, w);
    forall x: nat | x < g.n ensures Bit(g.T(g.id, w), x) == Bit(w, x) {
      TBit(g, g.id, w, x);
      assert g.ops[g.id][x] == x;
      assert g.ops[g.inv[g.id]][g.ops[g.id][x]] == x;
    }
    BitsDetermineBelow(g.T(g.id, w), w, g.n);
  }

  lemma TInverse(g: Group, i: nat, w: nat)
    requires g.Valid() && i < |g.ops| && w < Pow2(g.n)
    ensures g.T(g.inv[i], g.T(i, w)) == w
  {
    var j := g.inv[i];
    TFacts(g, j, g.T(i, w));
    forall x: nat | x < g.n ensures Bit(g.T(j, g.T(i, w)), x) == Bit(w, x) {
      TBit(g, j, g.T(i, w), x);
      TBit(g, i, w, g.ops[i][x]);
      assert g.ops[j][g.ops[i][x]] == x;
    }
    BitsDetermineBelow(g.T(j, g.T(i, w)), w, g.n);
  }

  /** Transforming commutes with the pointwise operators. */
  lemma TAnd(g: Group, i: nat, x: nat, y: nat)
    requires g.Valid() && i < |g.ops|
    ensures g.T(i, And(x, y)) == And(g.T(i, x), g.T(i, y))
  {
    forall b: nat ensures Bit(g.T(i, And(x, y)), b) == Bit(And(g.T(i, x), g.T(i, y)), b) {
      TBit(g, i, And(x, y), b);
      TBit(g, i, x, b);
      TBit(g, i, y, b);
      AndBit(g.T(i, x), g.T(i, y), b);
      if b < g.n { AndBit(x, y, g.ops[g.inv[i]][b]); }
    }
    BitsDetermine(g.T(i, And(x, y)), And(g.T(i, x), g.T(i, y)));
  }

  lemma TXor(g: Group, i: nat, x: nat, y: nat)
    requires g.Valid() && i < |g.ops|
    ensures g.T(i, Xor(x, y)) == Xor(g.T(i, x), g.T(i, y))
  {
    forall b: nat ensures Bit(g.T(i, Xor(x, y)), b) == Bit(Xor(g.T(i, x), g.T(i, y)), b) {
      TBit(g, i, Xor(x, y), b);
      TBit(g, i, x, b);
      TBit(g, i, y, b);
      XorBit(g.T(i, x), g.T(i, y), b);
      if b < g.n { XorBit(x, y, g.ops[g.inv[i]][b]); }
    }
    BitsDetermine(g.T(i, Xor(x, y)), Xor(g.T(i, x), g.T(i, y)));
  }

  lemma {:induction false} TZero(p: seq<nat>, k: nat)
    requires k <= |p|
    ensures TransformUpTo(p, 0, k) == 0
    decreases k
  {
    if k > 0 {
      TZero(p, k - 1);
      ZeroBit(k - 1);
    }
  }

  // ---------------------------------------------------------------- boards

  lemma T48Parts(g: Group, i: nat, a: nat)
    requires g.Valid() && i < |g.ops|
    ensures White(g.n, g.T48(i, a)) == g.T(i, White(g.n, a))
    ensures Black(g.n, g.T48(i, a)) == g.T(i, Black(g.n, a))
  {
    TFacts(g, i, White(g.n, a));
    PackParts(g.n, g.T(i, White(g.n, a)), g.T(i, Black(g.n, a)));
  }

  /** Every operation maps boards to boards with the same stone counts. */
  lemma T48Board(g: Group, i: nat, whites: nat, blacks: nat, a: nat)
    requires g.Valid() && i < |g.ops| && IsBoard(g.n, whites, blacks, a)
    ensures IsBoard(g.n, whites, blacks, g.T48(i, a))
  {
    T48Parts(g, i, a);
    LowBound(a, g.n);
    TFacts(g, i, White(g.n, a));
    TFacts(g, i, Black(g.n, a));
    TAnd(g, i, White(g.n, a), Black(g.n, a));
    assert MutuallyInverse(g.ops[i], g.ops[g.inv[i]], g.n);
    TZero(g.ops[i], g.n);
  }

  lemma T48Compose(g: Group, k: nat, i: nat, j: nat, a: nat)
    requires g.Valid() && g.Composes(k, i, j)
    ensures g.T48(i, g.T48(j, a)) == g.T48(k, a)
  {
    T48Parts(g, j, a);
    TCompose(g, k, i, j, White(g.n, a));
    TCompose(g, k, i, j, Black(g.n, a));
  }

  lemma T48Inverse(g: Group, i: nat, a: nat)
    requires g.Valid() && i < |g.ops| && Black(g.n, a) < Pow2(g.n)
    ensures g.T48(g.inv[i], g.T48(i, a)) == a
  {
    T48Parts(g, i, a);
    LowBound(a, g.n);
    TInverse(g, i, White(g.n, a));
    TInverse(g, i, Black(g.n, a));
    PartsPack(g.n, a);
  }

  /** Two boards are presentations of one position. */
  ghost predicate Symmetric(g: Group, a: nat, b: nat) {
    exists i: nat :: i < |g.ops| && b == g.T48(i, a)
  }
}
