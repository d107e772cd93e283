/** Every slot of every sector fits: at most twelve stones a side number fewer than 2^31 boards. */
module SlotCount {
  import opened Bits
  import opened Subsets
  import opened Symmetry
  import opened BoardSymmetries
  import opened Orbits
  import opened OrbitCount
  import opened BinomialValues

  // ---------------------------------------------------------------- words an element leaves alone

  /** The bits of w at the given points, read as one number. */
  function Reading(w: nat, points: seq<nat>): (r: nat)
    ensures r < Pow2(|points|)
  {
    if points == [] then 0 else (if Bit(w, points[0]) then 1 else 0) + 2 * Reading(w, points[1..])
  }

  lemma {:induction false} ReadingBits(w: nat, v: nat, points: seq<nat>)
    requires Reading(w, points) == Reading(v, points)
    ensures forall x | x in points :: Bit(w, x) == Bit(v, x)
  {
    hide Bit;
    if points != [] { ReadingBits(w, v, points[1..]); }
  }

  /** Where element e has the bit at point x come from. */
  function From(e: nat, x: nat): nat
    requires e < 8 && x < 24
  {
    Move(MotionOf(Op(Back(e))), x)
  }

  /** Points that with the points they come from are the whole board. */
  ghost predicate Covers(e: nat, points: seq<nat>)
    requires e < 8
  {
    forall x: nat :: x < 24 ==> x in points || From(e, x) in points
  }

  lemma FixedBit(e: nat, w: nat, x: nat)
    requires e < 8 && x < 24 && Act(e, w) == w
    ensures Bit(w, x) == Bit(w, From(e, x))
  {
    hide Act, Bit, Op, MotionOf, Move, Back;
    ActBit(e, w, x);
  }

  lemma FixedSame(e: nat, k: nat, points: seq<nat>, w: nat, v: nat)
    requires e < 8 && Covers(e, points) && w in Fixed(e, k) && v in Fixed(e, k)
    requires Reading(w, points) == Reading(v, points)
    ensures w == v
  {
    hide Act, Bit, From, Reading, Pow2, Ones;
    ReadingBits(w, v, points);
    forall x: nat | x < 24 ensures Bit(w, x) == Bit(v, x) {
      FixedBit(e, w, x);
      FixedBit(e, v, x);
    }
    BitsDetermineBelow(w, v, 24);
  }

  lemma FixedBound(e: nat, k: nat, points: seq<nat>)
    requires e < 8 && Covers(e, points)
    ensures |Fixed(e, k)| <= Pow2(|points|)
  {
    hide Fixed, Covers, Reading, Pow2;
    forall w, v | w in Fixed(e, k) && v in Fixed(e, k) && Reading(w, points) == Reading(v, points) ensures w == v {
      FixedSame(e, k, points, w, v);
    }
    ImageCount(Fixed(e, k), w => Reading(w, points));
    SubsetCount(Image(Fixed(e, k), w => Reading(w, points)), Range(Pow2(|points|)));
  }

  const HALF_RINGS: seq<nat> := [0, 1, 2, 3, 8, 9, 10, 11, 16, 17, 18, 19]
  const TWO_RINGS: seq<nat> := [0, 1, 2, 3, 4, 5, 6, 7, 8, 9, 10, 11, 12, 13, 14, 15]
  const RING_AND_HALF: seq<nat> := [0, 1, 2, 3, 4, 5, 6, 7, 8, 9, 10, 11]

  lemma HalfRingsCover()
    ensures Covers(2, HALF_RINGS)
  {
    forall x: nat | x < 24 ensures x in HALF_RINGS || From(2, x) in HALF_RINGS {
      MoveUnfold(MotionOf(Op(Back(2))), x);
    }
  }

  lemma TwoRingsCover()
    ensures Covers(4, TWO_RINGS)
  {
    forall x: nat | x < 24 ensures x in TWO_RINGS || From(4, x) in TWO_RINGS {
      MoveUnfold(MotionOf(Op(Back(4))), x);
    }
  }

  lemma RingAndHalfCover()
    ensures Covers(6, RING_AND_HALF)
  {
    forall x: nat | x < 24 ensures x in RING_AND_HALF || From(6, x) in RING_AND_HALF {
      MoveUnfold(MotionOf(Op(Back(6))), x);
    }
  }

  /** What an element leaves alone it leaves alone twice. */
  lemma FixedTwice(e: nat, k: nat)
    requires e < 8
    ensures |Fixed(e, k)| <= |Fixed(Times(e, e), k)|
  {
    hide Act, Times;
    forall w | w in Fixed(e, k) ensures w in Fixed(Times(e, e), k) { ActTimes(e, e, w); }
    SubsetCount(Fixed(e, k), Fixed(Times(e, e), k));
  }

  lemma Squares()
    ensures Times(1, 1) == Times(3, 3) == Times(5, 5) == Times(7, 7) == 2
  {}

  lemma FixedSizes(k: nat)
    ensures |Fixed(2, k)| <= 4096 && |Fixed(4, k)| <= 65536 && |Fixed(6, k)| <= 4096
  {
    assert Pow2(12) == 4096 && Pow2(16) == 65536;
    hide Fixed, Covers, Pow2;
    HalfRingsCover();
    TwoRingsCover();
    RingAndHalfCover();
    FixedBound(2, k, HALF_RINGS);
    FixedBound(4, k, TWO_RINGS);
    FixedBound(6, k, RING_AND_HALF);
  }

  lemma TotalStep(n: nat, k: nat)
    requires n < 8
    ensures FixedTotal(n + 1, k) == FixedTotal(n, k) + |Fixed(n, k)|
  {}

  lemma TotalUnfold(k: nat)
    ensures FixedTotal(8, k) == |Fixed(0, k)| + |Fixed(1, k)| + |Fixed(2, k)| + |Fixed(3, k)|
                                + |Fixed(4, k)| + |Fixed(5, k)| + |Fixed(6, k)| + |Fixed(7, k)|
  {
    assert FixedTotal(0, k) == 0;
    hide Fixed, FixedTotal;
    TotalStep(0, k);
    TotalStep(1, k);
    TotalStep(2, k);
    TotalStep(3, k);
    TotalStep(4, k);
    TotalStep(5, k);
    TotalStep(6, k);
    TotalStep(7, k);
  }

  lemma FixedTotalBound(k: nat)
    ensures FixedTotal(8, k) <= Binomial(24, k) + 90112
  {
    SubsetCount(Fixed(0, k), WordSet(k));
    hide Fixed, FixedTotal, Times, Binomial;
    TotalUnfold(k);
    Squares();
    FixedSizes(k);
    FixedTwice(1, k);
    FixedTwice(3, k);
    FixedTwice(5, k);
    FixedTwice(7, k);
  }

  // ---------------------------------------------------------------- slots

  /** The white words up to symmetry are no more than the words, and eight times as many are no
      more than the words and the few with a symmetry of their own. */
  lemma SeedCount(k: nat)
    ensures BOARD.Valid() && |BOARD.ops| == 16
    ensures |Seeds(BOARD, k)| <= Binomial(24, k) && 8 * |Seeds(BOARD, k)| <= Binomial(24, k) + 90112
  {
    hide FixedTotal, Binomial, Seeds, Group.Valid, IsSeed, Pow2, Ones;
    BoardIsGroup();
    SubsetCount(SeedSet(k), WordSet(k));
    EightTimesSeeds(k);
    FixedTotalBound(k);
  }

  function MostSeeds(w: nat): nat
    requires w <= 12
  {
    [1, 24, 276, 2024, 10626, 16577, 28088, 54527, 103197, 174702, 256421, 323282, 349283][w]
  }

  lemma SeedsAtMost(w: nat)
    requires w <= 12
    ensures BOARD.Valid() && |BOARD.ops| == 16 && |Seeds(BOARD, w)| <= MostSeeds(w)
  {
    hide Binomial, Seeds, Group.Valid;
    SeedCount(w);
    Row24Is(w);
  }

  lemma ProductsFit(w: nat)
    requires w <= 12
    ensures MostSeeds(w) * Greatest(w) < 0x8000_0000
  {
    match w
    case 0 => assert MostSeeds(0) * Greatest(0) == 2704156;
    case 1 => assert MostSeeds(1) * Greatest(1) == 32449872;
    case 2 => assert MostSeeds(2) * Greatest(2) == 194699232;
    case 3 => assert MostSeeds(3) * Greatest(3) == 713897184;
    case 4 => assert MostSeeds(4) * Greatest(4) == 1963217256;
    case 5 => assert MostSeeds(5) * Greatest(5) == 1531350106;
    case 6 => assert MostSeeds(6) * Greatest(6) == 1365638560;
    case 7 => assert MostSeeds(7) * Greatest(7) == 1325551370;
    case 8 => assert MostSeeds(8) * Greatest(8) == 1328145390;
    case 9 => assert MostSeeds(9) * Greatest(9) == 1124207370;
    case 10 => assert MostSeeds(10) * Greatest(10) == 880036872;
    case 11 => assert MostSeeds(11) * Greatest(11) == 554751912;
    case 12 => assert MostSeeds(12) * Greatest(12) == 322737492;
  }

  lemma Pow31()
    ensures Pow2(31) == 0x8000_0000
  {
    assert Pow2(8) == 256 && Pow2(16) == 65536;
    assert Pow2(24) == 0x100_0000;
  }

  /** A sector with at most twelve stones a side has fewer than 2^31 slots. */
  lemma SlotsFit(w: nat, b: nat)
    requires w <= 12
    ensures BOARD.Valid() && |BOARD.ops| == 16 && HashCount(BOARD, w, b) < Pow2(31)
  {
    hide Binomial, Seeds, Group.Valid, Pow2, MostSeeds, Greatest, HashCount;
    SeedsAtMost(w);
    GreatestIs(w, b);
    ProductsFit(w);
    Pow31();
    HashCountIs(w, b);
    TimesAtMost(|Seeds(BOARD, w)|, MostSeeds(w), Binomial(24 - w, b));
    TimesAtMost(Binomial(24 - w, b), Greatest(w), MostSeeds(w));
  }

  lemma HashCountIs(w: nat, b: nat)
    requires w <= 12
    ensures BOARD.n == 24 && |BOARD.ops| == 16
    ensures HashCount(BOARD, w, b) == |Seeds(BOARD, w)| * Binomial(24 - w, b)
  {
    BoardIsGroup();
    hide Binomial, Seeds, Group.Valid;
  }
}
