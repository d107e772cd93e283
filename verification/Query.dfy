/** Positions as the database is asked for them: folded so that the mover is white, and
    packed into one 64-bit key. */
module Query {
  import opened Bits
  import opened Collapse
  import opened Symmetry
  import opened BoardSymmetries
  import opened Canonical
  import opened SlotCount

  datatype SectorId = SectorId(whiteOnBoard: nat, blackOnBoard: nat, whiteInHand: nat, blackInHand: nat) {

    /** The assertion of SectorId::new. */
    predicate Valid() {
      whiteOnBoard <= 12 && blackOnBoard <= 12 && whiteInHand <= 12 && blackInHand <= 12
    }
  }

  datatype PerfectQuery = PerfectQuery(whiteBits: nat, blackBits: nat, whiteInHand: nat, blackInHand: nat,
                                       blackToMove: bool, onlyStoneTaking: bool)
  {
    /** The assertions of PerfectQuery::new, with at most twelve stones a side on the board. */
    ghost predicate Valid() {
      && whiteBits < Pow2(24) && blackBits < Pow2(24) && And(whiteBits, blackBits) == 0
      && whiteInHand <= 12 && blackInHand <= 12
      && Ones(whiteBits) <= 12 && Ones(blackBits) <= 12
    }

    /** sector_and_board. */
    function Sector(): SectorId {
      if blackToMove then SectorId(Ones(blackBits), Ones(whiteBits), blackInHand, whiteInHand)
      else SectorId(Ones(whiteBits), Ones(blackBits), whiteInHand, blackInHand)
    }

    function Board(): nat {
      if blackToMove then Or(blackBits, Shl(whiteBits, 24)) else Or(whiteBits, Shl(blackBits, 24))
    }

    /** The same position with the colours exchanged. */
    function Recoloured(): PerfectQuery {
      PerfectQuery(blackBits, whiteBits, blackInHand, whiteInHand, !blackToMove, onlyStoneTaking)
    }

    /** The same position seen through operation i. */
    function Presented(i: nat): PerfectQuery
      requires i < 16
    {
      PerfectQuery(BOARD.T(i, whiteBits), BOARD.T(i, blackBits), whiteInHand, blackInHand, blackToMove, onlyStoneTaking)
    }
  }

  /** The folded board has the sector's stone counts. */
  lemma FoldIsBoard(q: PerfectQuery)
    requires q.Valid()
    ensures q.Sector().Valid()
    ensures q.Board() == if q.blackToMove then Pack(24, q.blackBits, q.whiteBits)
            else Pack(24, q.whiteBits, q.blackBits)
    ensures IsBoard(24, q.Sector().whiteOnBoard, q.Sector().blackOnBoard, q.Board())
  {
    var w, b := if q.blackToMove then q.blackBits else q.whiteBits, if q.blackToMove then q.whiteBits else q.blackBits;
    hide And, Ones, Or, Pow2, Shl, Low, Shr;
    AndCommutes(q.whiteBits, q.blackBits);
    OrIsSum(b, w, 24);
    PackParts(24, w, b);
  }

  // ---------------------------------------------------------------- canonical keys

  /** hi above the k bits of lo. */
  function Cat(hi: nat, lo: nat, k: nat): nat { Shl(hi, k) + lo }

  lemma {:induction false} CatOrder(h1: nat, l1: nat, h2: nat, l2: nat, k: nat)
    requires l1 < Pow2(k) && l2 < Pow2(k)
    ensures Cat(h1, l1, k) < Cat(h2, l2, k) <==> h1 < h2 || (h1 == h2 && l1 < l2)
  {
    ShlGap(h1, h2, k);
    ShlGap(h2, h1, k);
  }

  lemma {:induction false} ShlGap(x: nat, y: nat, k: nat)
    ensures x < y ==> Shl(x, k) + Pow2(k) <= Shl(y, k)
    decreases k
  {
    if k > 0 { ShlGap(x, y, k - 1); }
  }

  lemma {:induction false} CatBound(hi: nat, lo: nat, k: nat, n: nat)
    requires lo < Pow2(k) && hi < Pow2(n)
    ensures Cat(hi, lo, k) < Pow2(n + k)
  {
    ShlBound(hi, n, k);
  }

  /** Splitting a word at bit k undoes Cat. */
  lemma {:induction false} CatParts(hi: nat, lo: nat, k: nat)
    requires lo < Pow2(k)
    ensures Shr(Cat(hi, lo, k), k) == hi && Low(Cat(hi, lo, k), k) == lo
    decreases k
  {
    if k > 0 {
      CatParts(hi, lo / 2, k - 1);
      assert Cat(hi, lo, k) / 2 == Cat(hi, lo / 2, k - 1) && Cat(hi, lo, k) % 2 == lo % 2;
    }
  }

  lemma {:induction false} ShlShl(x: nat, j: nat, k: nat)
    ensures Shl(Shl(x, j), k) == Shl(x, j + k)
  {
    if k > 0 { ShlShl(x, j, k - 1); }
  }

  lemma {:induction false} ShrShr(x: nat, j: nat, k: nat)
    ensures Shr(Shr(x, j), k) == Shr(x, j + k)
    decreases j
  {
    if j > 0 { ShrShr(x / 2, j - 1, k); }
  }

  lemma {:induction false} ShlSum(x: nat, y: nat, k: nat)
    ensures Shl(x + y, k) == Shl(x, k) + Shl(y, k)
  {
    if k > 0 { ShlSum(x, y, k - 1); }
  }

  /** pack_canonical_key; its assertion is that the slot fits in 32 bits. */
  function PackKey(id: SectorId, slot: nat): nat
    requires slot < Pow2(32)
  {
    Or(Or(Or(Or(Shl(id.whiteOnBoard, 56), Shl(id.blackOnBoard, 48)), Shl(id.whiteInHand, 40)),
      Shl(id.blackInHand, 32)), slot)
  }

  /** unpack_canonical_key. */
  function UnpackKey(key: nat): (SectorId, nat) {
    (SectorId(Low(Shr(key, 56), 8), Low(Shr(key, 48), 8), Low(Shr(key, 40), 8), Low(Shr(key, 32), 8)), Low(key, 32))
  }

  /** MID_REMOVAL_KEY_TAG is bit 63. */
  predicate Tagged(key: nat) { Bit(key, 63) }

  lemma OrCommutes(x: nat, y: nat)
    ensures Or(x, y) == Or(y, x)
  {
    forall i: nat ensures Bit(Or(x, y), i) == Bit(Or(y, x), i) {
      OrBit(x, y, i);
      OrBit(y, x, i);
    }
    BitsDetermine(Or(x, y), Or(y, x));
  }

  /** Or-ing in the next lower 8-bit field. */
  lemma JoinField(hi: nat, f: nat, k: nat)
    requires f < Pow2(8)
    ensures Or(Shl(hi, k + 8), Shl(f, k)) == Shl(Cat(hi, f, 8), k)
  {
    hide Or, Shl, Pow2;
    ShlBound(f, 8, k);
    OrCommutes(Shl(hi, k + 8), Shl(f, k));
    OrIsSum(hi, Shl(f, k), k + 8);
    ShlShl(hi, 8, k);
    ShlSum(Shl(hi, 8), f, k);
  }

  /** The four counts read as one number, most significant first. */
  function SectorNumber(id: SectorId): nat {
    Cat(Cat(Cat(id.whiteOnBoard, id.blackOnBoard, 8), id.whiteInHand, 8), id.blackInHand, 8)
  }

  lemma SmallCount()
    ensures Pow2(4) == 16 && Pow2(8) == 256
  {}

  lemma PackIsNested(id: SectorId, slot: nat)
    requires id.Valid() && slot < Pow2(32)
    ensures PackKey(id, slot) == Cat(SectorNumber(id), slot, 32)
  {
    SmallCount();
    hide Or, Shl, Pow2;
    JoinField(id.whiteOnBoard, id.blackOnBoard, 48);
    JoinField(Cat(id.whiteOnBoard, id.blackOnBoard, 8), id.whiteInHand, 40);
    JoinField(Cat(Cat(id.whiteOnBoard, id.blackOnBoard, 8), id.whiteInHand, 8), id.blackInHand, 32);
    OrCommutes(Shl(SectorNumber(id), 32), slot);
    OrIsSum(SectorNumber(id), slot, 32);
  }

  /** Unpacking a packed key returns the sector and the slot. */
  lemma UnpackPack(id: SectorId, slot: nat)
    requires id.Valid() && slot < Pow2(32)
    ensures UnpackKey(PackKey(id, slot)) == (id, slot)
  {
    PackIsNested(id, slot);
    SmallCount();
    hide Or, Shl, Shr, Low, Pow2, PackKey, Cat;
    var key := PackKey(id, slot);
    var c1 := Cat(id.whiteOnBoard, id.blackOnBoard, 8);
    var c2 := Cat(c1, id.whiteInHand, 8);
    var c3 := Cat(c2, id.blackInHand, 8);
    CatParts(c3, slot, 32);
    CatParts(c2, id.blackInHand, 8);
    CatParts(c1, id.whiteInHand, 8);
    CatParts(id.whiteOnBoard, id.blackOnBoard, 8);
    ShrShr(key, 32, 8);
    ShrShr(key, 40, 8);
    ShrShr(key, 48, 8);
    LowSmall(id.whiteOnBoard, 8);
  }

  lemma {:induction false} LowSmall(x: nat, k: nat)
    requires x < Pow2(k)
    ensures Low(x, k) == x
    decreases k
  {
    if k > 0 { LowSmall(x / 2, k - 1); }
  }

  /** A packed key never carries the tag of mid-removal keys. */
  lemma PackedIsUntagged(id: SectorId, slot: nat)
    requires id.Valid() && slot < Pow2(32)
    ensures !Tagged(PackKey(id, slot))
  {
    PackIsNested(id, slot);
    SmallCount();
    hide Pow2, Shl, PackKey, Cat, Bit;
    CatBound(id.whiteOnBoard, id.blackOnBoard, 8, 4);
    CatBound(Cat(id.whiteOnBoard, id.blackOnBoard, 8), id.whiteInHand, 8, 12);
    CatBound(Cat(Cat(id.whiteOnBoard, id.blackOnBoard, 8), id.whiteInHand, 8), id.blackInHand, 8, 20);
    CatBound(SectorNumber(id), slot, 32, 28);
    BitAbove(PackKey(id, slot), 60, 63);
  }

  /** The derived order of SectorId: field by field. */
  predicate Before(x: SectorId, y: SectorId) {
    || x.whiteOnBoard < y.whiteOnBoard
    || (x.whiteOnBoard == y.whiteOnBoard
        && (|| x.blackOnBoard < y.blackOnBoard
            || (x.blackOnBoard == y.blackOnBoard
                && (|| x.whiteInHand < y.whiteInHand
                    || (x.whiteInHand == y.whiteInHand && x.blackInHand < y.blackInHand)))))
  }

  /** Keys are ordered as their sectors, and within one sector as their slots. */
  lemma KeyOrder(x: SectorId, s: nat, y: SectorId, t: nat)
    requires x.Valid() && y.Valid() && s < Pow2(32) && t < Pow2(32)
    ensures PackKey(x, s) < PackKey(y, t) <==> Before(x, y) || (x == y && s < t)
  {
    PackIsNested(x, s);
    PackIsNested(y, t);
    SmallCount();
    hide Pow2, Shl, PackKey, Cat;
    var x1, y1 := Cat(x.whiteOnBoard, x.blackOnBoard, 8), Cat(y.whiteOnBoard, y.blackOnBoard, 8);
    var x2, y2 := Cat(x1, x.whiteInHand, 8), Cat(y1, y.whiteInHand, 8);
    CatOrder(SectorNumber(x), s, SectorNumber(y), t, 32);
    CatOrderBoth(x2, x.blackInHand, y2, y.blackInHand);
    CatOrderBoth(x1, x.whiteInHand, y1, y.whiteInHand);
    CatOrderBoth(x.whiteOnBoard, x.blackOnBoard, y.whiteOnBoard, y.blackOnBoard);
  }

  lemma CatOrderBoth(h1: nat, l1: nat, h2: nat, l2: nat)
    requires l1 < Pow2(8) && l2 < Pow2(8)
    ensures Cat(h1, l1, 8) < Cat(h2, l2, 8) <==> h1 < h2 || (h1 == h2 && l1 < l2)
    ensures Cat(h1, l1, 8) == Cat(h2, l2, 8) <==> h1 == h2 && l1 == l2
  {
    CatOrder(h1, l1, h2, l2, 8);
    CatOrder(h2, l2, h1, l1, 8);
  }

  // ---------------------------------------------------------------- one key for each position

  /** The slot canonical_key_for_query packs. */
  function CanonicalSlot(q: PerfectQuery): nat
    requires q.Valid()
  {
    FoldIsBoard(q);
    BoardIsGroup();
    ProbeIndex(BOARD, q.Sector().whiteOnBoard, q.Sector().blackOnBoard, q.Board())
  }

  /** The slot always fits in its 32 bits, so packing a key never fails. */
  lemma SlotFits(q: PerfectQuery)
    requires q.Valid()
    ensures CanonicalSlot(q) < Pow2(31) < Pow2(32)
  {
    hide IsBoard, Group.Valid, ProbeIndex, PerfectQuery.Sector, PerfectQuery.Board, Pow2, Ones, And;
    FoldIsBoard(q);
    BoardIsGroup();
    ProbeRoundTrip(BOARD, q.Sector().whiteOnBoard, q.Sector().blackOnBoard, q.Board());
    SlotsFit(q.Sector().whiteOnBoard, q.Sector().blackOnBoard);
    Pow2Strict(31, 32);
  }

  /** canonical_key_for_query. */
  function CanonicalKey(q: PerfectQuery): nat
    requires q.Valid()
  {
    SlotFits(q);
    PackKey(q.Sector(), CanonicalSlot(q))
  }

  lemma KeyUnpacks(q: PerfectQuery)
    requires q.Valid()
    ensures UnpackKey(CanonicalKey(q)) == (q.Sector(), CanonicalSlot(q))
  {
    hide UnpackKey, PackKey, PerfectQuery.Valid, PerfectQuery.Sector, PerfectQuery.Board, CanonicalSlot, Pow2;
    FoldIsBoard(q);
    SlotFits(q);
    UnpackPack(q.Sector(), CanonicalSlot(q));
  }

  lemma SlotsAlike(p: PerfectQuery, q: PerfectQuery)
    requires p.Valid() && q.Valid() && p.Sector() == q.Sector()
    ensures CanonicalSlot(p) == CanonicalSlot(q) <==> Symmetric(BOARD, p.Board(), q.Board())
  {
    hide Pow2, IsBoard, Group.Valid, ProbeIndex, PerfectQuery.Valid, PerfectQuery.Sector, PerfectQuery.Board, Symmetric;
    FoldIsBoard(p);
    FoldIsBoard(q);
    BoardIsGroup();
    ProbeIndexCharacterises(BOARD, p.Sector().whiteOnBoard, p.Sector().blackOnBoard, p.Board(), q.Board());
  }

  /** Two queries get one key exactly when, with the mover made white, they have the same
      stones in hand and boards that a symmetry takes to each other. */
  lemma KeyCharacterises(p: PerfectQuery, q: PerfectQuery)
    requires p.Valid() && q.Valid()
    ensures CanonicalKey(p) == CanonicalKey(q) <==> p.Sector() == q.Sector() && Symmetric(BOARD, p.Board(), q.Board())
  {
    hide UnpackKey, PackKey, PerfectQuery.Valid, PerfectQuery.Sector, PerfectQuery.Board, CanonicalSlot, Symmetric,
         Pow2;
    KeyUnpacks(p);
    KeyUnpacks(q);
    if p.Sector() == q.Sector() { SlotsAlike(p, q); }
  }

  /** A presentation of a query folds to the same presentation of its board. */
  lemma PresentedFolds(q: PerfectQuery, i: nat)
    requires q.Valid() && i < 16
    ensures q.Presented(i).Valid()
    ensures q.Presented(i).Sector() == q.Sector()
    ensures q.Presented(i).Board() == BOARD.T48(i, q.Board())
  {
    BoardIsGroup();
    hide Pow2, Or, And, Ones, Group.T, Group.Valid, Shl, Low, Shr;
    TFacts(BOARD, i, q.whiteBits);
    TFacts(BOARD, i, q.blackBits);
    TAnd(BOARD, i, q.whiteBits, q.blackBits);
    EmptyImage(i);
    FoldIsBoard(q);
    FoldIsBoard(q.Presented(i));
    if q.blackToMove {
      PackParts(24, q.blackBits, q.whiteBits);
    } else {
      PackParts(24, q.whiteBits, q.blackBits);
    }
  }

  lemma EmptyImage(i: nat)
    requires i < 16
    ensures BOARD.T(i, 0) == 0
  {
    TZero(BOARD.ops[i], |BOARD.ops[i]|);
  }

  lemma ImageIsSymmetric(g: Group, a: nat, i: nat)
    requires g.Valid() && i < |g.ops|
    ensures Symmetric(g, a, g.T48(i, a))
  {}

  lemma RecolouredFolds(q: PerfectQuery)
    requires q.Valid()
    ensures q.Recoloured().Valid()
    ensures q.Recoloured().Sector() == q.Sector() && q.Recoloured().Board() == q.Board()
  {
    hide And, Ones, Pow2, Or, Shl;
    AndCommutes(q.whiteBits, q.blackBits);
  }

  /** Turning, mirroring, swapping rings or exchanging the colours never changes the key. */
  lemma KeyIsInvariant(q: PerfectQuery, i: nat)
    requires q.Valid() && i < 16
    ensures q.Presented(i).Valid() && q.Recoloured().Valid()
    ensures CanonicalSlot(q.Presented(i)) == CanonicalSlot(q) == CanonicalSlot(q.Recoloured())
    ensures CanonicalKey(q.Presented(i)) == CanonicalKey(q) == CanonicalKey(q.Recoloured())
  {
    hide PackKey, Group.Valid, Group.T48, PerfectQuery.Presented, PerfectQuery.Recoloured, PerfectQuery.Valid;
    hide PerfectQuery.Sector, PerfectQuery.Board, ProbeIndex, IsBoard, Pow2, Symmetric;
    RecolouredFolds(q);
    PresentedFolds(q, i);
    BoardIsGroup();
    ImageIsSymmetric(BOARD, q.Board(), i);
    SlotsAlike(q, q.Presented(i));
  }
}
