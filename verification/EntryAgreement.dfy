/** When the C++ and the Rust lookups read the same entry: the condition on a sector's entries. */
module EntryAgreement {
  import Bits
  import opened Subsets
  import opened Collapse
  import opened Symmetry
  import opened Orbits
  import opened Canonical
  import opened Evals
  import opened SectorData
  import opened PerfectHash
  import opened PerfectHashTheorems

  /** evals is the sector of h, and its redirects name operations of the group. */
  ghost predicate Sector(h: Hash, evals: seq<RawEval>)
    reads h, h.fLookup, h.fSymLookup, h.fSymLookup2, h.fInvLookup, h.gLookup, h.gInvLookup
  {
    && h.Valid() && |evals| == HashCount(h.g, h.whites, h.blacks)
    && forall i: nat :: i < |evals| && evals[i].IsRedirect() ==> evals[i].Operation() < |h.g.ops|
  }

  lemma SectorParts(h: Hash, evals: seq<RawEval>)
    requires Sector(h, evals)
    ensures h.Valid() && h.g.Valid() && h.whites <= h.g.n <= POINTS && h.hashCount == |evals|
    ensures |evals| == HashCount(h.g, h.whites, h.blacks)
    ensures forall i: nat :: i < |evals| && evals[i].IsRedirect() ==> evals[i].Operation() < |h.g.ops|
  {
    hide WhiteArrays, Ranked, HashCount, Group.Valid;
    HashCountIs(h.g, h.whites, h.blacks);
  }

  /** The entry read for slot i, after at most one redirect. */
  ghost function EntryAt(h: Hash, evals: seq<RawEval>, i: nat): RawEval
    requires Sector(h, evals) && i < |evals|
    reads h, h.fLookup, h.fSymLookup, h.fSymLookup2, h.fInvLookup, h.gLookup, h.gInvLookup
  {
    SectorParts(h, evals);
    Resolved(h.g, h.whites, h.blacks, evals, i)
  }

  /** The slot Hash::hash starts from. */
  ghost function CppSlot(h: Hash, evals: seq<RawEval>, a: nat): (i: nat)
    requires Sector(h, evals) && IsBoard(h.g.n, h.whites, h.blacks, a)
    ensures i < |evals|
    reads h, h.fLookup, h.fSymLookup, h.fSymLookup2, h.fInvLookup, h.gLookup, h.gInvLookup
  {
    SectorParts(h, evals);
    InverseOfHash(h, a);
    h.Index(a)
  }

  /** The slot evaluate_raw starts from. */
  ghost function RustSlot(h: Hash, evals: seq<RawEval>, a: nat): (i: nat)
    requires Sector(h, evals) && IsBoard(h.g.n, h.whites, h.blacks, a)
    ensures i < |evals|
    reads h, h.fLookup, h.fSymLookup, h.fSymLookup2, h.fInvLookup, h.gLookup, h.gInvLookup
  {
    SectorParts(h, evals);
    ProbeRoundTrip(h.g, h.whites, h.blacks, a);
    ProbeIndex(h.g, h.whites, h.blacks, a)
  }

  // ---------------------------------------------------------------- one position

  /** Both lookups read one entry for every presentation of a. */
  ghost predicate SameEntryEverywhere(h: Hash, evals: seq<RawEval>, a: nat)
    requires Sector(h, evals) && IsBoard(h.g.n, h.whites, h.blacks, a)
    reads h, h.fLookup, h.fSymLookup, h.fSymLookup2, h.fInvLookup, h.gLookup, h.gInvLookup
  {
    SectorParts(h, evals);
    forall j: nat :: j < |h.g.ops| ==>
      (T48Board(h.g, j, h.whites, h.blacks, a);
       var b := h.g.T48(j, a);
       EntryAt(h, evals, CppSlot(h, evals, b)) == EntryAt(h, evals, RustSlot(h, evals, b)))
  }

  /** Every board of a's position that has a slot of its own, the white word being a seed, resolves
      to the entry of the position's canonical board. */
  ghost predicate SeedsSettled(h: Hash, evals: seq<RawEval>, a: nat)
    requires Sector(h, evals) && IsBoard(h.g.n, h.whites, h.blacks, a)
    reads h, h.fLookup, h.fSymLookup, h.fSymLookup2, h.fInvLookup, h.gLookup, h.gInvLookup
  {
    SectorParts(h, evals);
    forall k: nat :: k < |h.g.ops| && ToSeed(h.g, a, k) ==>
      (T48Board(h.g, k, h.whites, h.blacks, a);
       EntryAt(h, evals, CppSlot(h, evals, h.g.T48(k, a))) == EntryAt(h, evals, RustSlot(h, evals, a)))
  }

  lemma RustSlotInvariant(h: Hash, evals: seq<RawEval>, a: nat, j: nat)
    requires Sector(h, evals) && IsBoard(h.g.n, h.whites, h.blacks, a) && j < |h.g.ops|
    ensures IsBoard(h.g.n, h.whites, h.blacks, h.g.T48(j, a))
    ensures RustSlot(h, evals, h.g.T48(j, a)) == RustSlot(h, evals, a)
  {
    SectorParts(h, evals);
    hide Sector, IsBoard, Group.T48, Group.Valid, Hash.Valid, ProbeIndex, HashCount;
    T48Board(h.g, j, h.whites, h.blacks, a);
    assert Symmetric(h.g, a, h.g.T48(j, a));
    ProbeIndexCharacterises(h.g, h.whites, h.blacks, a, h.g.T48(j, a));
  }

  /** Every presentation shares its C++ slot with a seed board of the position, and each of those
      is a presentation. */
  lemma CppSlotOfPresentation(h: Hash, evals: seq<RawEval>, a: nat, j: nat) returns (k: nat)
    requires Sector(h, evals) && IsBoard(h.g.n, h.whites, h.blacks, a) && j < |h.g.ops|
    ensures k < |h.g.ops| && ToSeed(h.g, a, k)
    ensures IsBoard(h.g.n, h.whites, h.blacks, h.g.T48(j, a)) && IsBoard(h.g.n, h.whites, h.blacks, h.g.T48(k, a))
    ensures CppSlot(h, evals, h.g.T48(j, a)) == CppSlot(h, evals, h.g.T48(k, a))
  {
    SectorParts(h, evals);
    hide Sector, IsBoard, Group.T48, Group.T, Group.Valid, Hash.Valid, Hash.Image, Hash.Index, HashCount, Least, White;
    k := ImageOfPresentation(h, a, j);
    SeedBoardPresented(h, a, k);
    EqualIndexIsSymmetric(h, h.g.T48(j, a), h.g.T48(k, a));
  }

  lemma SeedBoardPresented(h: Hash, a: nat, k: nat)
    requires h.Valid() && IsBoard(h.g.n, h.whites, h.blacks, a) && k < |h.g.ops|
    requires h.g.T(k, White(h.g.n, a)) == Least(h.g, White(h.g.n, a))
    ensures IsBoard(h.g.n, h.whites, h.blacks, h.g.T48(k, a)) && h.Image(h.g.T48(k, a)) == h.g.T48(k, a)
  {
    T48Board(h.g, k, h.whites, h.blacks, a);
    T48Parts(h.g, k, a);
    WhiteInRange(h.g.n, a);
    LeastInvariant(h.g, k, White(h.g.n, a));
    hide WhiteArrays, Ranked, HashCount, Hash.Image, IsBoard, Group.T48, Group.T, Least, Group.Valid, White;
    SeedBoardFixed(h, h.g.T48(k, a));
  }

  /** For one position: both lookups agree on all its presentations exactly when its seed boards
      have settled on one entry. */
  lemma EntryAgreesIff(h: Hash, evals: seq<RawEval>, a: nat)
    requires Sector(h, evals) && IsBoard(h.g.n, h.whites, h.blacks, a)
    ensures SameEntryEverywhere(h, evals, a) <==> SeedsSettled(h, evals, a)
  {
    hide Sector, IsBoard, Group.T48, Hash.Valid, EntryAt, CppSlot, RustSlot, ToSeed;
    if SameEntryEverywhere(h, evals, a) {
      forall k: nat | k < |h.g.ops| && ToSeed(h.g, a, k)
        ensures IsBoard(h.g.n, h.whites, h.blacks, h.g.T48(k, a))
        ensures EntryAt(h, evals, CppSlot(h, evals, h.g.T48(k, a))) == EntryAt(h, evals, RustSlot(h, evals, a))
      {
        RustSlotInvariant(h, evals, a, k);
      }
    }
    if SeedsSettled(h, evals, a) {
      forall j: nat | j < |h.g.ops|
        ensures IsBoard(h.g.n, h.whites, h.blacks, h.g.T48(j, a))
        ensures EntryAt(h, evals, CppSlot(h, evals, h.g.T48(j, a)))
             == EntryAt(h, evals, RustSlot(h, evals, h.g.T48(j, a)))
      {
        RustSlotInvariant(h, evals, a, j);
        var k := CppSlotOfPresentation(h, evals, a, j);
      }
    }
  }

  // ---------------------------------------------------------------- a whole sector

  /** Every slot resolves to the entry of its position's canonical slot. */
  ghost predicate SlotsSettled(h: Hash, evals: seq<RawEval>)
    requires Sector(h, evals)
    reads h, h.fLookup, h.fSymLookup, h.fSymLookup2, h.fInvLookup, h.gLookup, h.gInvLookup
  {
    SectorParts(h, evals);
    forall i: nat :: i < |evals| ==>
      (HashOfInverse(h, i);
       EntryAt(h, evals, i) == EntryAt(h, evals, RustSlot(h, evals, InverseBoard(h.g, h.whites, h.blacks, i))))
  }

  /** Hash::hash and evaluate_raw read the same entry for every board of a sector exactly when
      every slot resolves to the entry of its position's canonical slot. */
  lemma SectorAgreesIff(h: Hash, evals: seq<RawEval>)
    requires Sector(h, evals)
    ensures (forall a: nat :: IsBoard(h.g.n, h.whites, h.blacks, a) ==>
               EntryAt(h, evals, CppSlot(h, evals, a)) == EntryAt(h, evals, RustSlot(h, evals, a)))
       <==> SlotsSettled(h, evals)
  {
    SectorParts(h, evals);
    hide Sector, IsBoard, Group.T48, Group.Valid, Hash.Valid, EntryAt, RustSlot, Hash.Index, InverseBoard, HashCount;
    if SlotsSettled(h, evals) {
      forall a: nat | IsBoard(h.g.n, h.whites, h.blacks, a)
        ensures EntryAt(h, evals, CppSlot(h, evals, a)) == EntryAt(h, evals, RustSlot(h, evals, a))
      {
        InverseOfHash(h, a);
        var b := InverseBoard(h.g, h.whites, h.blacks, h.Index(a));
        var j: nat :| j < |h.g.ops| && b == h.g.T48(j, a);
        RustSlotInvariant(h, evals, a, j);
      }
    } else {
      forall i: nat | i < |evals|
        ensures IsBoard(h.g.n, h.whites, h.blacks, InverseBoard(h.g, h.whites, h.blacks, i))
        ensures CppSlot(h, evals, InverseBoard(h.g, h.whites, h.blacks, i)) == i
      {
        HashOfInverse(h, i);
      }
    }
  }

  lemma WhiteInRange(n: nat, a: nat)
    ensures White(n, a) < Bits.Pow2(n)
  {
    Bits.LowBound(a, n);
  }
}
