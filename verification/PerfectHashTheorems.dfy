/** What the filled tables of the C++ hash mean, and how far its index identifies positions. */
module PerfectHashTheorems {
  import opened Bits
  import opened Subsets
  import opened Collapse
  import opened Symmetry
  import opened BoardSymmetries
  import opened Orbits
  import opened OrbitEntry
  import opened PerfectHash

  /** What the arrays hold for a word w with the right number of stones. */
  lemma TablesAt(h: Hash, w: nat)
    requires h.Valid() && IsWord(h.g, h.whites, w)
    ensures w < h.fLookup.Length && w < h.fSymLookup.Length && w < h.fSymLookup2.Length
    ensures 0 <= h.fLookup[w] < h.fInvLookup.Length
    ensures h.fInvLookup[h.fLookup[w]] == Least(h.g, w)
    ensures GoodSym(h.g, w, h.fSymLookup[w]) && ExactTransforms(h.g, w, h.fSymLookup2[w])
  {
    LeastInSeeds(h.g, w);
    hide Group.Valid, Seeds, Words, Least, Ranked, GoodSym, ExactTransforms, Pow2, Ones, HashCount;
    EntryAt(h.g, h.whites, Seeds(h.g, h.whites), h.fLookup, h.fSymLookup, h.fSymLookup2, w);
    assert h.fInvLookup[..][h.fLookup[w]] == Least(h.g, w);
  }

  /** Two words share a number exactly when a symmetry takes one to the other. */
  lemma NumberIsOrbit(h: Hash, v: nat, w: nat)
    requires h.Valid() && IsWord(h.g, h.whites, v) && IsWord(h.g, h.whites, w)
    ensures v < h.fLookup.Length && w < h.fLookup.Length
    ensures h.fLookup[v] == h.fLookup[w] <==> SameOrbit(h.g, v, w)
  {
    TablesAt(h, v);
    TablesAt(h, w);
    SameOrbitIffSameLeast(h.g, v, w);
    LeastInSeeds(h.g, v);
    LeastInSeeds(h.g, w);
    SeedsAreAscending(h.g, h.whites);
    hide Group.Valid, Seeds, Words, Least, Ranked, GoodSym, ExactTransforms, Pow2, Ones, HashCount, SameOrbit;
    EntryAt(h.g, h.whites, Seeds(h.g, h.whites), h.fLookup, h.fSymLookup, h.fSymLookup2, v);
    EntryAt(h.g, h.whites, Seeds(h.g, h.whites), h.fLookup, h.fSymLookup, h.fSymLookup2, w);
  }

  /** The word kept for a number is the least of its orbit, and is a member of it. */
  lemma InverseIsLeast(h: Hash, w: nat)
    requires h.Valid() && IsWord(h.g, h.whites, w)
    ensures w < h.fLookup.Length && 0 <= h.fLookup[w] < h.fInvLookup.Length
    ensures var s := h.fInvLookup[h.fLookup[w]];
            && SameOrbit(h.g, w, s)
            && forall i: nat :: i < |h.g.ops| ==> s <= h.g.T(i, w)
  {
    TablesAt(h, w);
    var op := LeastIsMin(h.g, w);
  }

  /** The recorded operation takes every word to its orbit's least word, and does nothing
      whatever to a board whose white word is that least word. */
  lemma SymReachesSeed(h: Hash, w: nat)
    requires h.Valid() && IsWord(h.g, h.whites, w)
    ensures w < h.fSymLookup.Length && w < h.fLookup.Length && 0 <= h.fLookup[w] < h.fInvLookup.Length
    ensures h.fSymLookup[w] < |h.g.ops|
    ensures h.g.T(h.fSymLookup[w], w) == h.fInvLookup[h.fLookup[w]]
    ensures w == h.fInvLookup[h.fLookup[w]] ==> ActsAsIdentity(h.g, h.fSymLookup[w])
  {
    TablesAt(h, w);
  }

  /** Bit j of the second table says exactly whether operation j reaches the least word. */
  lemma Sym2IsExact(h: Hash, w: nat, j: nat)
    requires h.Valid() && IsWord(h.g, h.whites, w)
    ensures w < h.fSymLookup2.Length && w < h.fLookup.Length && 0 <= h.fLookup[w] < h.fInvLookup.Length
    ensures Bit(h.fSymLookup2[w], j) <==> j < |h.g.ops| && h.g.T(j, w) == h.fInvLookup[h.fLookup[w]]
  {
    TablesAt(h, w);
  }

  // ---------------------------------------------------------------- the two directions

  /** A board whose white word is a seed is its own image. */
  lemma SeedBoardFixed(h: Hash, a: nat)
    requires h.Valid() && IsBoard(h.g.n, h.whites, h.blacks, a) && IsSeed(h.g, White(h.g.n, a))
    ensures h.Image(a) == a
  {
    LowBound(a, h.g.n);
    ImageUnfolds(h, a);
    WhiteLookups(h, a);
    PartsPack(h.g.n, a);
  }

  /** Re-indexing the board of index i gives i back. */
  lemma HashOfInverse(h: Hash, i: nat)
    requires h.Valid() && i < h.hashCount
    ensures i < HashCount(h.g, h.whites, h.blacks)
    ensures IsBoard(h.g.n, h.whites, h.blacks, InverseBoard(h.g, h.whites, h.blacks, i))
    ensures h.Index(InverseBoard(h.g, h.whites, h.blacks, i)) == i
  {
    hide Group.Valid, WhiteArrays, Ranked, HashCount, Hash.Index, Hash.Image, IsBoard, InverseBoard, IsSeed,
         DirectIndex;
    DirectOfInverse(h.g, h.whites, h.blacks, i);
    var a := InverseBoard(h.g, h.whites, h.blacks, i);
    SeedBoardFixed(h, a);
    IndexUnfolds(h, a);
  }

  /** The index of any board is in range, and its inverse is that board's image, a
      presentation of the same position. */
  lemma InverseOfHash(h: Hash, a: nat)
    requires h.Valid() && IsBoard(h.g.n, h.whites, h.blacks, a)
    ensures h.Index(a) < h.hashCount == HashCount(h.g, h.whites, h.blacks)
    ensures InverseBoard(h.g, h.whites, h.blacks, h.Index(a)) == h.Image(a)
    ensures Symmetric(h.g, a, h.Image(a))
  {
    hide Group.Valid, WhiteArrays, Ranked, HashCount, Hash.Index, Hash.Image, IsBoard, InverseBoard, IsSeed,
         DirectIndex;
    ImageIsSeedBoard(h, a);
    IndexUnfolds(h, a);
    ImageUnfolds(h, a);
    InverseOfDirect(h.g, h.whites, h.blacks, h.Image(a));
  }

  /** Equal indices only arise for presentations of one position. */
  lemma EqualIndexIsSymmetric(h: Hash, a: nat, b: nat)
    requires h.Valid() && IsBoard(h.g.n, h.whites, h.blacks, a) && IsBoard(h.g.n, h.whites, h.blacks, b)
    ensures h.Index(a) == h.Index(b) <==> h.Image(a) == h.Image(b)
    ensures h.Index(a) == h.Index(b) ==> Symmetric(h.g, a, b)
  {
    hide WhiteArrays, Ranked, HashCount, Hash.Index, Hash.Image, IsBoard, InverseBoard, IsSeed, DirectIndex, Group.T48,
         Group.Valid;
    InverseOfHash(h, a);
    InverseOfHash(h, b);
    IndexUnfolds(h, a);
    IndexUnfolds(h, b);
    if h.Index(a) == h.Index(b) {
      var i: nat :| i < |h.g.ops| && h.Image(a) == h.g.T48(i, a);
      var j: nat :| j < |h.g.ops| && h.Image(b) == h.g.T48(j, b);
      BackFrom(h.g, h.whites, h.blacks, i, a, j, b);
    }
  }

  lemma BackFrom(g: Group, whites: nat, blacks: nat, i: nat, a: nat, j: nat, b: nat)
    requires g.Valid() && i < |g.ops| && j < |g.ops| && IsBoard(g.n, whites, blacks, b)
    requires g.T48(i, a) == g.T48(j, b)
    ensures Symmetric(g, a, b)
  {
    T48Inverse(g, j, b);
    T48Compose(g, Mul(g, g.inv[j], i), g.inv[j], i, a);
  }

  // ---------------------------------------------------------------- when presentations agree

  /** The operations recorded for a's white word all do the same to its black word. */
  ghost predicate BlackSettled(h: Hash, a: nat)
    requires h.Valid() && IsBoard(h.g.n, h.whites, h.blacks, a)
    reads h, h.fLookup, h.fSymLookup, h.fSymLookup2, h.fInvLookup, h.gLookup, h.gInvLookup
  {
    WhiteLookups(h, a);
    var mask := h.fSymLookup2[White(h.g.n, a)];
    forall i: nat, j: nat :: Bit(mask, i) && Bit(mask, j) && i < |h.g.ops| && j < |h.g.ops| ==>
      h.g.T(i, Black(h.g.n, a)) == h.g.T(j, Black(h.g.n, a))
  }

  ghost predicate SameIndexEverywhere(h: Hash, a: nat)
    requires h.Valid() && IsBoard(h.g.n, h.whites, h.blacks, a)
    reads h, h.fLookup, h.fSymLookup, h.fSymLookup2, h.fInvLookup, h.gLookup, h.gInvLookup
  {
    forall j: nat :: j < |h.g.ops| ==> (T48Board(h.g, j, h.whites, h.blacks, a); h.Index(h.g.T48(j, a)) == h.Index(a))
  }

  lemma MaskIsExact(h: Hash, a: nat, i: nat)
    requires h.Valid() && IsBoard(h.g.n, h.whites, h.blacks, a)
    ensures White(h.g.n, a) < h.fSymLookup2.Length
    ensures Bit(h.fSymLookup2[White(h.g.n, a)], i)
            <==> i < |h.g.ops| && h.g.T(i, White(h.g.n, a)) == Least(h.g, White(h.g.n, a))
  {
    LowBound(a, h.g.n);
    TablesAt(h, White(h.g.n, a));
  }

  /** Image of the j-th presentation of a: one of the operations recorded for a, applied to a. */
  lemma ImageOfPresentation(h: Hash, a: nat, j: nat) returns (k: nat)
    requires h.Valid() && IsBoard(h.g.n, h.whites, h.blacks, a) && j < |h.g.ops|
    ensures IsBoard(h.g.n, h.whites, h.blacks, h.g.T48(j, a))
    ensures k < |h.g.ops| && h.Image(h.g.T48(j, a)) == h.g.T48(k, a)
    ensures h.g.T(k, White(h.g.n, a)) == Least(h.g, White(h.g.n, a))
  {
    T48Board(h.g, j, h.whites, h.blacks, a);
    var b := h.g.T48(j, a);
    ImageUnfolds(h, b);
    WhiteLookups(h, b);
    T48Parts(h.g, j, a);
    LowBound(a, h.g.n);
    hide WhiteArrays, Ranked, HashCount, Hash.Image, Hash.Valid, IsBoard, Group.T48, Group.T, Least, Group.Valid, Low,
         Shr, Pow2;
    var op := h.fSymLookup[White(h.g.n, b)];
    k := Mul(h.g, op, j);
    T48Compose(h.g, k, op, j, a);
    TCompose(h.g, k, op, j, White(h.g.n, a));
    LeastInvariant(h.g, j, White(h.g.n, a));
  }

  /** All presentations of a position get one index exactly when the operations recorded
      for its white word agree on its black word. */
  lemma IndexInvariantIff(h: Hash, a: nat)
    requires h.Valid() && IsBoard(h.g.n, h.whites, h.blacks, a)
    ensures SameIndexEverywhere(h, a) <==> BlackSettled(h, a)
  {
    if BlackSettled(h, a) { SettledIsInvariant(h, a); }
    if SameIndexEverywhere(h, a) { InvariantIsSettled(h, a); }
  }

  lemma SettledIsInvariant(h: Hash, a: nat)
    requires h.Valid() && IsBoard(h.g.n, h.whites, h.blacks, a) && BlackSettled(h, a)
    ensures SameIndexEverywhere(h, a)
  {
    ImageUnfolds(h, a);
    WhiteLookups(h, a);
    var op := h.fSymLookup[White(h.g.n, a)];
    MaskIsExact(h, a, op);
    forall j: nat | j < |h.g.ops|
      ensures IsBoard(h.g.n, h.whites, h.blacks, h.g.T48(j, a)) && h.Index(h.g.T48(j, a)) == h.Index(a)
    {
      var k := ImageOfPresentation(h, a, j);
      MaskIsExact(h, a, k);
      hide WhiteArrays, Ranked, HashCount, Hash.Image, Hash.Index, Hash.Valid, IsBoard, Group.T, Least, Group.Valid,
           Low, Shr, Pow2, Bit;
      EqualIndexIsSymmetric(h, h.g.T48(j, a), a);
    }
  }

  lemma InvariantIsSettled(h: Hash, a: nat)
    requires h.Valid() && IsBoard(h.g.n, h.whites, h.blacks, a) && SameIndexEverywhere(h, a)
    ensures BlackSettled(h, a)
  {
    WhiteLookups(h, a);
    forall i: nat | i < |h.g.ops| && Bit(h.fSymLookup2[White(h.g.n, a)], i)
      ensures h.g.T(i, Black(h.g.n, a)) == Black(h.g.n, h.Image(a))
    {
      T48Board(h.g, i, h.whites, h.blacks, a);
      T48Parts(h.g, i, a);
      MaskIsExact(h, a, i);
      LowBound(a, h.g.n);
      LeastInvariant(h.g, i, White(h.g.n, a));
      var b := h.g.T48(i, a);
      hide WhiteArrays, Ranked, HashCount, Hash.Image, Hash.Index, Hash.Valid, IsBoard, Group.T, Group.T48, Least,
           Group.Valid, Low, Shr, Pow2, Bit;
      SeedBoardFixed(h, b);
      EqualIndexIsSymmetric(h, b, a);
    }
  }

  // ---------------------------------------------------------------- where they do not agree

  lemma OnePointImage(op: nat, x: nat, y: nat)
    requires op < 16 && x < 24 && y < 24 && MAPS[op][x] == y
    ensures BOARD.T(op, Pow2(x)) == Pow2(y)
  {
    BoardIsGroup();
    var q := BOARD.ops[BOARD.inv[op]];
    forall j: nat ensures Bit(BOARD.T(op, Pow2(x)), j) == Bit(Pow2(y), j) {
      TBit(BOARD, op, Pow2(x), j);
      Pow2Bit(y, j);
      if j < 24 {
        Pow2Bit(x, q[j]);
        assert MutuallyInverse(BOARD.ops[op], q, 24);
        assert BOARD.ops[op][q[j]] == j && q[BOARD.ops[op][x]] == x;
      }
    }
    BitsDetermine(BOARD.T(op, Pow2(x)), Pow2(y));
  }

  lemma FirstPointIsSeed()
    ensures IsSeed(BOARD, 1)
  {
    BoardIsGroup();
    assert Pow2(0) == 1;
    Pow2Strict(0, 24);
    TIdentity(BOARD, 1);
    var op := LeastIsMin(BOARD, 1);
    TFacts(BOARD, op, 1);
    assert Ones(0) == 0 && Ones(1) == 1;
  }

  /** White on point 0, black on point x. */
  function PairBoard(x: nat): nat { Pack(24, Pow2(0), Pow2(x)) }

  lemma MirroredPair()
    ensures BOARD.T48(4, PairBoard(1)) == PairBoard(7)
    ensures PairBoard(1) != PairBoard(7)
    ensures IsSeed(BOARD, White(24, PairBoard(1))) && IsSeed(BOARD, White(24, PairBoard(7)))
  {
    PairIsBoard(1);
    PairIsBoard(7);
    MirrorRow();
    OnePointImage(4, 0, 0);
    OnePointImage(4, 1, 7);
    FirstPointIsSeed();
    Pow2Strict(1, 7);
    assert Pow2(0) == 1;
  }

  /** White on point 0 with black on point 1, and the mirror image with black on point 7,
      are one position with two indices. */
  lemma MirroredPairDiffers(h: Hash)
    requires h.Valid() && h.g == BOARD && h.whites == 1 && h.blacks == 1
    ensures IsBoard(24, 1, 1, PairBoard(1)) && IsBoard(24, 1, 1, PairBoard(7))
    ensures Symmetric(BOARD, PairBoard(1), PairBoard(7))
    ensures h.Index(PairBoard(1)) != h.Index(PairBoard(7))
  {
    MirroredPair();
    PairIsBoard(1);
    PairIsBoard(7);
    hide *;
    Presented(PairBoard(1), 4);
    SeedBoardFixed(h, PairBoard(1));
    SeedBoardFixed(h, PairBoard(7));
    EqualIndexIsSymmetric(h, PairBoard(1), PairBoard(7));
  }

  lemma Presented(a: nat, i: nat)
    requires i < |BOARD.ops|
    ensures Symmetric(BOARD, a, BOARD.T48(i, a))
  {}

  lemma MirrorRow()
    ensures MAPS[4][0] == 0 && MAPS[4][1] == 7
  {}

  lemma PairIsBoard(x: nat)
    requires 0 < x < 24
    ensures IsBoard(24, 1, 1, Pack(24, Pow2(0), Pow2(x)))
    ensures White(24, Pack(24, Pow2(0), Pow2(x))) == Pow2(0) && Black(24, Pack(24, Pow2(0), Pow2(x))) == Pow2(x)
  {
    Pow2Strict(0, 24);
    Pow2Strict(x, 24);
    PackParts(24, Pow2(0), Pow2(x));
    OnesOfPow2(0);
    OnesOfPow2(x);
    MaskBit(Pow2(0), x);
    Pow2Bit(0, x);
  }
}
