/** Squeezing the black word past the white one: collapse drops the white points from
    the black word, uncollapse puts them back. A board of n points is the number
    white + black * 2^n. */
module Collapse {
  import opened Bits

  /** a & mask24. */
  function White(n: nat, a: nat): nat { Low(a, n) }

  /** a >> 24. */
  function Black(n: nat, a: nat): nat { Shr(a, n) }

  /** w | (b << 24). */
  function Pack(n: nat, w: nat, b: nat): nat { w + Shl(b, n) }

  lemma {:induction false} PackParts(n: nat, w: nat, b: nat)
    requires w < Pow2(n)
    ensures White(n, Pack(n, w, b)) == w && Black(n, Pack(n, w, b)) == b
    decreases n
  {
    if n > 0 {
      PackParts(n - 1, w / 2, b);
      assert Pack(n, w, b) / 2 == Pack(n - 1, w / 2, b) && Pack(n, w, b) % 2 == w % 2;
    }
  }

  lemma {:induction false} PartsPack(n: nat, a: nat)
    ensures Pack(n, White(n, a), Black(n, a)) == a
    decreases n
  {
    if n > 0 {
      PartsPack(n - 1, a / 2);
    }
  }

  /** Two stones never share a point, both words fit the board, and the counts are w and b. */
  ghost predicate IsBoard(n: nat, whites: nat, blacks: nat, a: nat) {
    && Black(n, a) < Pow2(n)
    && And(White(n, a), Black(n, a)) == 0
    && Ones(White(n, a)) == whites
    && Ones(Black(n, a)) == blacks
  }

  // ---------------------------------------------------------------- specification

  /** The bits of b at the points not in w, closed up, reading n points from the bottom. */
  function Compact(w: nat, b: nat, n: nat): nat {
    if n == 0 then 0
    else if w % 2 == 1 then Compact(w / 2, b / 2, n - 1)
    else b % 2 + 2 * Compact(w / 2, b / 2, n - 1)
  }

  /** The bits of c dealt out to the points not in w. */
  function Expand(w: nat, c: nat, n: nat): nat {
    if n == 0 then 0
    else if w % 2 == 1 then 2 * Expand(w / 2, c, n - 1)
    else c % 2 + 2 * Expand(w / 2, c / 2, n - 1)
  }

  lemma {:induction false} DisjointHalves(w: nat, b: nat)
    requires And(w, b) == 0
    ensures And(w / 2, b / 2) == 0 && !(w % 2 == 1 && b % 2 == 1)
  {
    AndBit(w, b, 0);
    ZeroBit(0);
  }

  lemma CompactSteps(w: nat, b: nat, n: nat)
    requires n > 0
    ensures w % 2 == 1 ==> Compact(w, b, n) == Compact(w / 2, b / 2, n - 1)
    ensures w % 2 == 0 ==> Compact(w, b, n) == b % 2 + 2 * Compact(w / 2, b / 2, n - 1)
  {}

  lemma ExpandSteps(w: nat, c: nat, n: nat)
    requires n > 0
    ensures w % 2 == 1 ==> Expand(w, c, n) == 2 * Expand(w / 2, c, n - 1)
    ensures w % 2 == 0 ==> Expand(w, c, n) == c % 2 + 2 * Expand(w / 2, c / 2, n - 1)
  {}

  lemma EmptyBoard(w: nat, b: nat)
    requires w < Pow2(0) && b < Pow2(0)
    ensures w == 0 && b == 0 && Compact(w, b, 0) == 0 && Expand(w, b, 0) == 0 && Pow2(0) == 1 && Ones(0) == 0
    ensures And(w, b) == 0
  {}

  lemma DoublePow2(k: nat)
    requires k > 0
    ensures Pow2(k) == 2 * Pow2(k - 1)
  {}

  /** Expanding what was compacted returns the black word exactly, and compacting
      keeps the number of stones. */
  lemma {:induction false} ExpandCompact(w: nat, b: nat, n: nat)
    requires b < Pow2(n) && w < Pow2(n) && And(w, b) == 0
    ensures Expand(w, Compact(w, b, n), n) == b
    ensures Ones(Compact(w, b, n)) == Ones(b)
    ensures Ones(w) <= n && Compact(w, b, n) < Pow2(n - Ones(w))
  {
    hide Compact, Expand, Ones, Pow2, And;
    if n == 0 {
      EmptyBoard(w, b);
    } else {
      DoublePow2(n);
      DisjointHalves(w, b);
      ExpandCompact(w / 2, b / 2, n - 1);
      CompactSteps(w, b, n);
      ExpandSteps(w, Compact(w, b, n), n);
      OnesStep(w);
      OnesStep(b);
      OnesStep(Compact(w, b, n));
      if w % 2 == 0 { DoublePow2(n - Ones(w)); }
    }
  }

  /** Compacting what was expanded returns the compact word exactly; the expanded word
      lies on the board, off the white points, with as many stones. */
  lemma {:induction false} CompactExpand(w: nat, c: nat, n: nat)
    requires w < Pow2(n) && Ones(w) <= n && c < Pow2(n - Ones(w))
    ensures Compact(w, Expand(w, c, n), n) == c
    ensures And(w, Expand(w, c, n)) == 0
    ensures Expand(w, c, n) < Pow2(n)
    ensures Ones(Expand(w, c, n)) == Ones(c)
  {
    hide Compact, Expand, Ones, Pow2, And;
    if n == 0 {
      EmptyBoard(w, c);
    } else {
      DoublePow2(n);
      OnesStep(w);
      OnesStep(c);
      OnesUpperBound(w / 2, n - 1);
      ExpandSteps(w, c, n);
      CompactSteps(w, Expand(w, c, n), n);
      if w % 2 == 1 {
        CompactExpand(w / 2, c, n - 1);
        AppendZero(w, Expand(w / 2, c, n - 1));
      } else {
        DoublePow2(n - Ones(w));
        CompactExpand(w / 2, c / 2, n - 1);
        AppendBit(w, Expand(w / 2, c / 2, n - 1), c % 2);
      }
    }
  }

  lemma AppendZero(w: nat, e: nat)
    requires And(w / 2, e) == 0
    ensures And(w, 2 * e) == 0 && Ones(2 * e) == Ones(e)
    ensures 2 * e / 2 == e
  {}

  lemma AppendBit(w: nat, e: nat, d: nat)
    requires d < 2 && w % 2 == 0 && And(w / 2, e) == 0
    ensures And(w, d + 2 * e) == 0 && Ones(d + 2 * e) == d + Ones(e)
    ensures (d + 2 * e) / 2 == e && (d + 2 * e) % 2 == d
  {}

  // ---------------------------------------------------------------- the shifting loops

  /** r with the word v placed above its k low bits. */
  function Above(r: nat, v: nat, k: nat): nat { r + Shl(v, k) }

  lemma AboveStep(r: nat, v: nat, d: nat, k: nat)
    requires r < Pow2(k) && d < 2
    ensures Above(r, d + 2 * v, k) == Above(Or(r, if d == 1 then Pow2(k) else 0), v, k + 1)
    ensures Or(r, if d == 1 then Pow2(k) else 0) < Pow2(k + 1)
  {
    OrIsSum(1, r, k);
    ShlOne(k);
    ShlAppend(v, d, k);
  }

  lemma {:induction false} ShlAppend(v: nat, d: nat, k: nat)
    requires d < 2
    ensures Shl(d + 2 * v, k) == (if d == 1 then Pow2(k) else 0) + Shl(v, k + 1)
    decreases k
  {
    if k > 0 { ShlAppend(v, d, k - 1); }
  }

  /** What collapse's loop keeps: after t points, s of them free of white, r holds the
      compact word of those points and b has been shifted down past the t - s others. */
  ghost predicate Collapsing(w: nat, b0: nat, n: nat, t: nat, s: nat, b: nat, r: nat) {
    && t <= n
    && r < Pow2(s)
    && Shr(b, s) == Shr(b0, t)
    && Above(r, Compact(Shr(w, t), Shr(b0, t), n - t), s) == Compact(w, b0, n)
  }

  lemma CollapsingStep(w: nat, b0: nat, n: nat, t: nat, s: nat, b: nat, r: nat)
    requires t < n && Collapsing(w, b0, n, t, s, b, r)
    ensures And(w, Pow2(t)) == 0 ==> Collapsing(w, b0, n, t + 1, s + 1, b, Or(r, And(b, Pow2(s))))
    ensures And(w, Pow2(t)) != 0 ==> Collapsing(w, b0, n, t + 1, s, b / 2, r)
  {
    MaskBit(w, t);
    MaskBit(b, s);
    ShrBit(w, t, 0);
    ShrBit(b, s, 0);
    ShrStep(w, t);
    ShrStep(b0, t);
    ShrStep(b, s);
    if And(w, Pow2(t)) == 0 {
      AboveStep(r, Compact(Shr(w, t) / 2, Shr(b0, t) / 2, n - t - 1), Shr(b, s) % 2, s);
    }
  }

  lemma CollapsingEnds(w: nat, b: nat, n: nat, s: nat, bEnd: nat, r: nat)
    ensures Collapsing(w, b, n, 0, 0, b, 0)
    ensures Collapsing(w, b, n, n, s, bEnd, r) ==> r == Compact(w, b, n)
  {
    ShlZero(s);
    assert Pow2(0) == 1;
  }

  /** collapse: i walks the board, j the compact word, black slides down at white points. */
  method CollapseLoop(n: nat, a: nat) returns (r: nat)
    ensures r == Compact(White(n, a), Black(n, a), n)
  {
    hide Collapsing, Compact, And, Or, Low, Shr;
    var w, b := White(n, a), Black(n, a);
    ghost var b0 := b;
    ghost var s, t := 0, 0;
    CollapsingEnds(w, b0, n, s, b, 0);
    var i, j := 1, 1;
    r := 0;
    while i < Pow2(n)
      invariant i == Pow2(t) && j == Pow2(s) && t <= n
      invariant Collapsing(w, b0, n, t, s, b, r)
      decreases n - t
    {
      CollapsingStep(w, b0, n, t, s, b, r);
      if And(w, i) == 0 {
        r := Or(r, And(b, j));
        j := 2 * j;
        s := s + 1;
      } else {
        b := b / 2;
      }
      i := 2 * i;
      t := t + 1;
    }
    if t < n { Pow2Strict(t, n); }
    CollapsingEnds(w, b0, n, s, b, r);
  }

  /** What uncollapse's loop keeps: b has been shifted up past the t - s white points. */
  ghost predicate Uncollapsing(w: nat, c: nat, n: nat, t: nat, s: nat, b: nat, r: nat) {
    && t <= n
    && r < Pow2(t)
    && Shr(b, t) == Shr(c, s)
    && Above(r, Expand(Shr(w, t), Shr(c, s), n - t), t) == Expand(w, c, n)
  }

  lemma UncollapsingStep(w: nat, c: nat, n: nat, t: nat, s: nat, b: nat, r: nat)
    requires t < n && Uncollapsing(w, c, n, t, s, b, r)
    ensures And(w, Pow2(t)) != 0 ==> Uncollapsing(w, c, n, t + 1, s, 2 * b, r)
    ensures And(w, Pow2(t)) == 0 ==> Uncollapsing(w, c, n, t + 1, s + 1, b, Or(r, And(b, Pow2(t))))
  {
    MaskBit(w, t);
    MaskBit(b, t);
    ShrBit(w, t, 0);
    ShrBit(b, t, 0);
    ShrStep(w, t);
    ShrStep(c, s);
    if And(w, Pow2(t)) != 0 {
      assert Shr(2 * b, t + 1) == Shr(b, t);
      AboveStep(r, Expand(Shr(w, t) / 2, Shr(c, s), n - t - 1), 0, t);
    } else {
      ShrStep(b, t);
      AboveStep(r, Expand(Shr(w, t) / 2, Shr(c, s) / 2, n - t - 1), Shr(b, t) % 2, t);
    }
  }

  lemma UncollapsingEnds(w: nat, c: nat, n: nat, s: nat, bEnd: nat, r: nat)
    ensures Uncollapsing(w, c, n, 0, 0, c, 0)
    ensures Uncollapsing(w, c, n, n, s, bEnd, r) ==> r == Expand(w, c, n)
  {
    ShlZero(n);
    assert Pow2(0) == 1;
  }

  /** uncollapse: the compact word slides up at white points. */
  method UncollapseLoop(n: nat, a: nat) returns (board: nat)
    ensures board == Pack(n, White(n, a), Expand(White(n, a), Black(n, a), n))
  {
    hide Uncollapsing, Expand, And, Or, Low, Shr, Shl;
    var w, b, r := White(n, a), Black(n, a), 0;
    ghost var c := b;
    ghost var s, t := 0, 0;
    UncollapsingEnds(w, c, n, s, b, 0);
    var i := 1;
    while i < Pow2(n)
      invariant i == Pow2(t) && t <= n
      invariant Uncollapsing(w, c, n, t, s, b, r)
      decreases n - t
    {
      UncollapsingStep(w, c, n, t, s, b, r);
      if And(w, i) != 0 {
        b := 2 * b;
      } else {
        r := Or(r, And(b, i));
        s := s + 1;
      }
      i := 2 * i;
      t := t + 1;
    }
    if t < n { Pow2Strict(t, n); }
    UncollapsingEnds(w, c, n, s, b, r);
    board := Pack(n, w, r);
  }
}
