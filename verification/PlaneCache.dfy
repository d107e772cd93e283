/** The cache of built planes and its fast lookups, answering as the database does. */
module PlaneCache {
  import opened Collapse
  import opened Symmetry
  import opened BoardSymmetries
  import opened Orbits
  import opened Canonical
  import opened SectorData
  import opened PerfectHasher
  import opened Query
  import opened WdlPlane
  import opened Fifo
  import opened Database

  /** The values are, slot by slot, what the loaded sector's resolved entries read as. */
  ghost predicate PlaneReads(src: Source, id: SectorId, values: seq<int>) {
    && id.Valid() && src.Load(id).Ok?
    && (var (value, evals) := src.Load(id).value;
        BoardIsGroup();
        && |values| == |evals| == HashCount(BOARD, id.whiteOnBoard, id.blackOnBoard)
        && AllResolve(BOARD, id.whiteOnBoard, id.blackOnBoard, evals)
        && forall i: nat :: i < |evals| ==>
             SlotReads(BOARD, id.whiteOnBoard, id.blackOnBoard, evals, value, src.virtWin, src.virtLoss, i, values[i]))
  }

  ghost predicate GoodPlane(src: Source, id: SectorId, p: Plane)
    reads p
  {
    p.Valid() && PlaneReads(src, id, p.Values())
  }

  /** What load_or_build_plane gives when no cache directory is set. */
  ghost function BuildAnswer(src: Source, id: SectorId): Result<()>
    requires src.Valid() && id.Valid()
  {
    if src.Load(id).Err? then Err(src.Load(id).error)
    else
      BoardIsGroup();
      LoadLength(src, id);
      if AllResolve(BOARD, id.whiteOnBoard, id.blackOnBoard, src.Load(id).value.1) then Ok(()) else Err(Panicked)
  }

  lemma LoadLength(src: Source, id: SectorId)
    requires src.Valid() && id.Valid() && src.Load(id).Ok?
    ensures |src.Load(id).value.1| == HashCount(BOARD, id.whiteOnBoard, id.blackOnBoard)
  {
    hide HashCount, BOARD, SectorId.Valid;
  }

  ghost predicate CachedPlanes(src: Source, planes: map<SectorId, Plane>, order: seq<SectorId>)
    reads set id | id in planes :: planes[id]
  {
    Tracks(order, planes.Keys) && forall id :: id in planes ==> GoodPlane(src, id, planes[id])
  }

  lemma PlanesCount(src: Source, planes: map<SectorId, Plane>, order: seq<SectorId>)
    requires CachedPlanes(src, planes, order)
    ensures |order| == |planes|
  {
    TracksCount(order, planes.Keys);
  }

  lemma PlanesPop(src: Source, planes: map<SectorId, Plane>, order: seq<SectorId>)
    requires CachedPlanes(src, planes, order) && order != []
    ensures order[0] in planes && CachedPlanes(src, planes - {order[0]}, order[1..])
  {
    hide Tracks, GoodPlane;
    PopFront(order, planes.Keys);
    assert (planes - {order[0]}).Keys == planes.Keys - {order[0]};
  }

  lemma PlanesPush(src: Source, planes: map<SectorId, Plane>, order: seq<SectorId>, id: SectorId, p: Plane)
    requires CachedPlanes(src, planes, order) && id !in planes && GoodPlane(src, id, p)
    ensures CachedPlanes(src, planes[id := p], order + [id])
  {
    hide Tracks, GoodPlane;
    PushBack(order, planes.Keys, id);
    assert planes[id := p].Keys == planes.Keys + {id};
  }

  lemma PlanesMember(src: Source, planes: map<SectorId, Plane>, order: seq<SectorId>, id: SectorId)
    requires CachedPlanes(src, planes, order)
    ensures id in order <==> id in planes
    ensures id in planes ==> GoodPlane(src, id, planes[id])
  {}

  class WdlPlaneCache {
    const src: Source
    const capacity: Capacity
    var hashers: map<SectorId, Hasher>
    var planes: map<SectorId, Plane>
    var planeLoadOrder: seq<SectorId>

    ghost predicate Valid()
      reads this, set id | id in planes :: planes[id]
    {
      && src.Valid() && capacity != AtMost(0)
      && (forall id :: id in hashers ==> id.Valid() && HasherFor(hashers[id], id))
      && CachedPlanes(src, planes, planeLoadOrder)
      && Fits(planeLoadOrder, capacity)
    }

    /** with_options: a zero capacity is refused (here before the first lookup). */
    constructor (src: Source, capacity: Capacity)
      requires src.Valid()
      requires capacity != AtMost(0)
      ensures Valid() && this.src == src && this.capacity == capacity && planeLoadOrder == []
    {
      this.src, this.capacity := src, capacity;
      hashers, planes, planeLoadOrder := map[], map[], [];
    }

    /** hasher_for: hashers are built once and never dropped. */
    method HasherOf(id: SectorId) returns (h: Hasher)
      requires Valid() && id.Valid()
      modifies this`hashers
      ensures Valid() && HasherFor(h, id)
    {
      hide Source.Valid, CachedPlanes, HasherFor, SectorId.Valid;
      if id !in hashers {
        h := NewHasher(id);
        hashers := hashers[id := h];
      }
      h := hashers[id];
    }

    /** load_or_build_plane, without a cache directory. */
    method BuildPlane(id: SectorId) returns (r: Result<Plane>)
      requires Valid() && id.Valid()
      modifies this`hashers
      ensures Valid()
      ensures r.Ok? <==> BuildAnswer(src, id).Ok?
      ensures r.Err? ==> BuildAnswer(src, id) == Err(r.error)
      ensures r.Ok? ==> fresh(r.value) && GoodPlane(src, id, r.value)
    {
      hide *;
      CacheParts(this);
      BuildUnfolds(src, id);
      var loaded := src.Load(id);
      if loaded.Err? {
        return Err(loaded.error);
      }
      var (value, evals) := loaded.value;
      var h := HasherOf(id);
      HasherParts(src, id, h);
      var built := Build(h, evals, value, src.virtWin, src.virtLoss);
      if built.None? {
        return Err(Panicked);
      }
      PlaneIsGood(src, id, h, built.value);
      r := Ok(built.value);
    }

    /** plane_for: neither of its panics can happen; a failed build leaves the planes as they were. */
    method PlaneFor(id: SectorId) returns (r: Result<Plane>)
      requires Valid() && id.Valid()
      modifies this
      ensures Valid()
      ensures r.Ok? <==> BuildAnswer(src, id).Ok?
      ensures r.Err? ==> BuildAnswer(src, id) == Err(r.error) && planes == old(planes)
      ensures r.Ok? ==> GoodPlane(src, id, r.value)
      ensures planeLoadOrder == if r.Ok? then AfterLoad(old(planeLoadOrder), capacity, id) else old(planeLoadOrder)
    {
      hide *;
      CacheParts(this);
      AfterLoadUnfolds(planeLoadOrder, capacity, id);
      PlanesMember(src, planes, planeLoadOrder, id);
      if id !in planes {
        var built := BuildPlane(id);
        if built.Err? {
          return built;
        }
        CacheParts(this);
        EvictPlanes();
        EvictedKeeps(old(planeLoadOrder), capacity, id);
        CacheParts(this);
        PlanesMember(src, planes, planeLoadOrder, id);
        PlanesPush(src, planes, planeLoadOrder, id, built.value);
        planes := planes[id := built.value];
        planeLoadOrder := planeLoadOrder + [id];
        CacheFrom(this);
      } else {
        GoodIsBuilt(src, id, planes[id]);
      }
      r := Ok(planes[id]);
    }

    /** The eviction loop of plane_for. */
    method EvictPlanes()
      requires Valid()
      modifies this`planes, this`planeLoadOrder
      ensures Valid()
      ensures planeLoadOrder == Evicted(old(planeLoadOrder), capacity)
      ensures capacity.AtMost? ==> |planeLoadOrder| < capacity.limit
    {
      hide *;
      CacheParts(this);
      EvictedIs(planeLoadOrder, capacity);
      if capacity.AtMost? {
        while |planes| >= capacity.limit
          invariant HashersFit(hashers)
          invariant CachedPlanes(src, planes, planeLoadOrder)
          invariant |planeLoadOrder| == |planes| <= capacity.limit
          invariant planeLoadOrder == if |planes| >= capacity.limit then old(planeLoadOrder)
                    else Evicted(old(planeLoadOrder), capacity)
          decreases |planes|
        {
          assert planeLoadOrder != [];
          PlanesPop(src, planes, planeLoadOrder);
          var evicted := planeLoadOrder[0];
          planeLoadOrder := planeLoadOrder[1..];
          assert evicted in planes;
          planes := planes - {evicted};
          PlanesCount(src, planes, planeLoadOrder);
        }
      }
      CacheFrom(this);
    }

    /** wdl_for_query: whatever is cached, the answer is the plane's. */
    method WdlForQuery(q: PerfectQuery) returns (r: Result<Option<int>>)
      requires Valid() && q.Valid()
      modifies this
      ensures Valid()
      ensures r == WdlAnswer(src, q)
      ensures planeLoadOrder == if q.onlyStoneTaking || BuildAnswer(src, q.Sector()).Err? then old(planeLoadOrder)
                                else AfterLoad(old(planeLoadOrder), capacity, q.Sector())
    {
      hide *;
      CacheParts(this);
      FoldIsBoard(q);
      if q.onlyStoneTaking {
        WdlUnfolds(src, q);
        return Ok(None);
      }
      WdlUnfolds(src, q);
      var id, board := q.Sector(), q.Board();
      var h := HasherOf(id);
      QueryParts(q, h);
      var probe := HashProbe(h, board);
      var plane := PlaneFor(id);
      match plane
      case Ok(p) =>
        PlaneHolds(src, q, p);
        CodeOf(p, probe.index);
        var wdl := p.WdlAt(probe.index);
        r := Ok(Some(wdl));
      case Err(e) =>
        r := if e.MissingAsset? then Ok(None) else Err(e);
    }
  }

  ghost predicate HashersFit(hashers: map<SectorId, Hasher>) {
    forall id :: id in hashers ==> id.Valid() && HasherFor(hashers[id], id)
  }

  lemma CacheParts(c: WdlPlaneCache)
    requires c.Valid()
    ensures c.src.Valid() && c.capacity != AtMost(0) && HashersFit(c.hashers)
    ensures CachedPlanes(c.src, c.planes, c.planeLoadOrder) && Fits(c.planeLoadOrder, c.capacity)
    ensures |c.planeLoadOrder| == |c.planes|
    ensures c.capacity.AtMost? ==> 0 < c.capacity.limit && |c.planes| <= c.capacity.limit
  {
    hide Source.Valid, CachedPlanes, HasherFor, SectorId.Valid;
    PlanesCount(c.src, c.planes, c.planeLoadOrder);
  }

  lemma CacheFrom(c: WdlPlaneCache)
    requires c.src.Valid() && c.capacity != AtMost(0) && HashersFit(c.hashers)
    requires CachedPlanes(c.src, c.planes, c.planeLoadOrder)
    requires c.capacity.AtMost? ==> |c.planeLoadOrder| <= c.capacity.limit
    ensures c.Valid()
  {
    hide Source.Valid, CachedPlanes, HasherFor, SectorId.Valid;
  }

  lemma AfterLoadUnfolds(order: seq<SectorId>, capacity: Capacity, id: SectorId)
    requires capacity != AtMost(0)
    ensures AfterLoad(order, capacity, id) == if id in order then order else Evicted(order, capacity) + [id]
  {}

  lemma BuildUnfolds(src: Source, id: SectorId)
    requires src.Valid() && id.Valid()
    ensures src.Load(id).Err? ==> BuildAnswer(src, id) == Err(src.Load(id).error)
    ensures src.Load(id).Ok? ==>
              (BoardIsGroup(); LoadLength(src, id);
               BuildAnswer(src, id)
               == if AllResolve(BOARD, id.whiteOnBoard, id.blackOnBoard, src.Load(id).value.1) then Ok(())
                  else Err(Panicked))
  {
    hide HashCount, AllResolve, Source.Load, Source.Valid, BOARD;
  }

  lemma HasherParts(src: Source, id: SectorId, h: Hasher)
    requires src.Valid() && id.Valid() && src.Load(id).Ok? && HasherFor(h, id)
    ensures h.Valid() && h.g == BOARD && h.whites == id.whiteOnBoard && h.blacks == id.blackOnBoard
    ensures |src.Load(id).value.1| == HashCount(h.g, h.whites, h.blacks) == h.HashCountOf()
  {
    LoadLength(src, id);
    TablesAreLists(h);
    hide Hasher.Valid, Source.Load, Source.Valid;
  }

  /** A plane built from a sector's entries is good for that sector. */
  lemma PlaneIsGood(src: Source, id: SectorId, h: Hasher, p: Plane)
    requires src.Valid() && id.Valid() && src.Load(id).Ok? && HasherFor(h, id)
    requires h.Valid() && |src.Load(id).value.1| == HashCount(h.g, h.whites, h.blacks) && h.g.Valid()
    requires AllResolve(h.g, h.whites, h.blacks, src.Load(id).value.1)
    requires p.Valid() && p.hashCount == |src.Load(id).value.1|
    requires forall i: nat :: i < |src.Load(id).value.1| ==>
               SlotReads(h.g, h.whites, h.blacks, src.Load(id).value.1, src.Load(id).value.0,
                         src.virtWin, src.virtLoss, i, p.Values()[i])
    ensures GoodPlane(src, id, p)
  {
    BoardIsGroup();
    hide Hasher.Valid, Group.Valid, AllResolve, SlotReads, HashCount, Plane.Valid, Source.Load, Source.Valid, BOARD;
  }

  lemma GoodIsBuilt(src: Source, id: SectorId, p: Plane)
    requires src.Valid() && id.Valid() && GoodPlane(src, id, p)
    ensures BuildAnswer(src, id).Ok?
  {
    hide HashCount, AllResolve, SlotReads, Plane.Valid, Source.Load, Source.Valid, BOARD;
  }

  /** The answer, case by case. */
  lemma WdlUnfolds(src: Source, q: PerfectQuery)
    requires src.Valid() && q.Valid()
    ensures q.Sector().Valid()
    ensures q.onlyStoneTaking ==> WdlAnswer(src, q) == Ok(None)
    ensures !q.onlyStoneTaking && BuildAnswer(src, q.Sector()).Err? ==>
              WdlAnswer(src, q) == if BuildAnswer(src, q.Sector()).error.MissingAsset? then Ok(None)
                                    else Err(BuildAnswer(src, q.Sector()).error)
  {
    FoldIsBoard(q);
    hide HashCount, AllResolve, Source.Load, Source.Valid, BOARD, CanonicalSlot, PerfectQuery.Sector,
         PerfectQuery.Valid, SectorId.Valid, Resolved;
  }

  lemma QueryParts(q: PerfectQuery, h: Hasher)
    requires q.Valid() && HasherFor(h, q.Sector())
    ensures h.Valid() && IsBoard(h.g.n, h.whites, h.blacks, q.Board())
    ensures h.whites <= h.g.n <= Subsets.POINTS && h.g.Valid()
    ensures ProbeIndex(h.g, h.whites, h.blacks, q.Board()) == CanonicalSlot(q)
  {
    FoldIsBoard(q);
    hide Hasher.Valid, Group.Valid, ProbeIndex, PerfectQuery.Sector, PerfectQuery.Board, PerfectQuery.Valid, IsBoard;
  }

  /** The plane of a query's sector holds the answer at the query's slot. */
  lemma PlaneHolds(src: Source, q: PerfectQuery, p: Plane)
    requires src.Valid() && q.Valid() && !q.onlyStoneTaking && GoodPlane(src, q.Sector(), p)
    ensures p.Valid() && CanonicalSlot(q) < p.hashCount == |p.Values()|
    ensures WdlAnswer(src, q) == Ok(Some(p.Values()[CanonicalSlot(q)]))
  {
    assert src.Load(q.Sector()).Ok?;
    SlotInSector(src, q);
    BoardIsGroup();
    assert |p.Values()| == p.hashCount;
    var id, slot := q.Sector(), CanonicalSlot(q);
    hide HashCount, AllResolve, Plane.Valid, Source.Load, Source.Valid, BOARD, CanonicalSlot, PerfectQuery.Sector,
         PerfectQuery.Valid, SectorId.Valid, Resolved, WdlOf;
    assert SlotReads(BOARD, id.whiteOnBoard, id.blackOnBoard, src.Load(id).value.1, src.Load(id).value.0,
                     src.virtWin, src.virtLoss, slot, p.Values()[slot]);
  }
}
