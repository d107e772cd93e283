/** The Rust database and the plane cache that speeds it up, over one read-only source of
    sectors. */
module Database {
  import opened Subsets
  import opened Collapse
  import opened Symmetry
  import opened BoardSymmetries
  import opened Orbits
  import opened Canonical
  import opened Evals
  import opened SectorData
  import opened PerfectHasher
  import opened Query
  import opened WdlPlane
  import opened Fifo

  datatype DatabaseError =
    | MissingSectorValue(id: SectorId)
    | MissingAsset(id: SectorId)
    | ReadFailed(id: SectorId)
    | ParseFailed(id: SectorId)
    | Panicked

  datatype Result<T> = Ok(value: T) | Err(error: DatabaseError)

  /** What reading a sector's file gives. */
  datatype FileRead = Absent | Unreadable | Corrupt | Decoded(evals: seq<RawEval>)

  /** The sector values of the .secval table with its two virtual values, and the sector files. */
  datatype Source = Source(values: map<SectorId, int>, files: map<SectorId, FileRead>, virtWin: int, virtLoss: int) {

    function File(id: SectorId): FileRead {
      if id in files then files[id] else Absent
    }

    /** Decoding yields one entry for each slot of the sector. */
    ghost predicate Valid() {
      forall id :: id in files && id.Valid() && files[id].Decoded? ==>
        |files[id].evals| == HashCount(BOARD, id.whiteOnBoard, id.blackOnBoard)
    }

    /** Loading a sector: its value first, then its file. */
    function Load(id: SectorId): Result<(int, seq<RawEval>)> {
      if id !in values then Err(MissingSectorValue(id))
      else
        match File(id)
        case Absent => Err(MissingAsset(id))
        case Unreadable => Err(ReadFailed(id))
        case Corrupt => Err(ParseFailed(id))
        case Decoded(evals) => Ok((values[id], evals))
    }
  }

  datatype DatabaseEval = DatabaseEval(raw: RawEval, sectorValue: int) {

    /** to_outcome. */
    function ToOutcome(src: Source): PerfectOutcome {
      var absolute := raw.key1 + sectorValue;
      if absolute == src.virtWin then Win(raw.key2)
      else if absolute == src.virtLoss then Loss(raw.key2)
      else Draw(raw.key2)
    }
  }

  datatype PerfectOutcome = Win(steps: int) | Draw(steps: int) | Loss(steps: int) {

    function Wdl(): int {
      match this
      case Win(_) => 1
      case Draw(_) => 0
      case Loss(_) => -1
    }
  }

  // ---------------------------------------------------------------- what the answers are

  /** The answer of evaluate_raw, with no cache in sight. */
  function RawAnswer(src: Source, q: PerfectQuery): Result<Option<DatabaseEval>>
    requires src.Valid() && q.Valid()
  {
    if q.onlyStoneTaking then Ok(None)
    else
      var id := q.Sector();
      match src.Load(id)
      case Err(e) => Err(e)
      case Ok((value, evals)) =>
        SlotInSector(src, q);
        var slot := CanonicalSlot(q);
        if evals[slot].IsRedirect() && evals[slot].Operation() >= 16 then Err(ParseFailed(id))
        else
          BoardIsGroup();
          var raw := Resolved(BOARD, id.whiteOnBoard, id.blackOnBoard, evals, slot);
          if evals[slot].IsRedirect() && raw.IsRedirect() then Err(ParseFailed(id))
          else Ok(Some(DatabaseEval(raw, value)))
  }

  function OutcomeAnswer(src: Source, q: PerfectQuery): Result<Option<PerfectOutcome>>
    requires src.Valid() && q.Valid()
  {
    match RawAnswer(src, q)
    case Err(e) => Err(e)
    case Ok(None) => Ok(None)
    case Ok(Some(eval)) => Ok(Some(eval.ToOutcome(src)))
  }

  /** The answer of wdl_for_query. */
  ghost function WdlAnswer(src: Source, q: PerfectQuery): Result<Option<int>>
    requires src.Valid() && q.Valid()
  {
    if q.onlyStoneTaking then Ok(None)
    else
      var id := q.Sector();
      match src.Load(id)
      case Err(MissingAsset(_)) => Ok(None)
      case Err(e) => Err(e)
      case Ok((value, evals)) =>
        SlotInSector(src, q);
        BoardIsGroup();
        if AllResolve(BOARD, id.whiteOnBoard, id.blackOnBoard, evals) then
          assert SlotResolves(BOARD, id.whiteOnBoard, id.blackOnBoard, evals, CanonicalSlot(q));
          var raw := Resolved(BOARD, id.whiteOnBoard, id.blackOnBoard, evals, CanonicalSlot(q));
          Ok(Some(WdlOf(raw.key1 + value, src.virtWin, src.virtLoss)))
        else Err(Panicked)
  }

  /** The slot of a query lies in its sector. */
  lemma SlotInSector(src: Source, q: PerfectQuery)
    requires src.Valid() && q.Valid() && src.Load(q.Sector()).Ok?
    ensures CanonicalSlot(q) < |src.Load(q.Sector()).value.1|
            == HashCount(BOARD, q.Sector().whiteOnBoard, q.Sector().blackOnBoard)
    ensures q.Sector().Valid()
  {
    FoldIsBoard(q);
    BoardIsGroup();
    hide Group.Valid, IsBoard, HashCount, ProbeIndex, PerfectQuery.Sector, PerfectQuery.Board, BOARD;
    ProbeRoundTrip(BOARD, q.Sector().whiteOnBoard, q.Sector().blackOnBoard, q.Board());
  }

  /** How the two answers to one query stand: the plane says exactly what the database says,
      up to the distance, except that it reports an absent file as no answer and gives up
      on a sector any of whose redirects does not resolve. */
  lemma PlaneRefinesDatabase(src: Source, q: PerfectQuery)
    requires src.Valid() && q.Valid()
    ensures WdlAnswer(src, q).Ok? && WdlAnswer(src, q).value.Some? ==>
              && OutcomeAnswer(src, q).Ok? && OutcomeAnswer(src, q).value.Some?
              && OutcomeAnswer(src, q).value.value.Wdl() == WdlAnswer(src, q).value.value
    ensures OutcomeAnswer(src, q).Ok? && OutcomeAnswer(src, q).value.Some? ==>
              || WdlAnswer(src, q) == Ok(Some(OutcomeAnswer(src, q).value.value.Wdl()))
              || WdlAnswer(src, q) == Err(Panicked)
    ensures WdlAnswer(src, q) == Ok(None)
            <==> q.onlyStoneTaking || OutcomeAnswer(src, q) == Err(MissingAsset(q.Sector()))
    ensures q.onlyStoneTaking ==> OutcomeAnswer(src, q) == Ok(None)
    ensures WdlAnswer(src, q).Err? && WdlAnswer(src, q).error != Panicked
            ==> OutcomeAnswer(src, q) == Err(WdlAnswer(src, q).error)
  {
    if q.onlyStoneTaking {
    } else if src.Load(q.Sector()).Ok? {
      var raw := DecodedAnswers(src, q);
      hide RawAnswer, WdlAnswer, Source.Valid, Source.Load, PerfectQuery.Valid, PerfectQuery.Sector;
    } else {
      hide Source.Valid, PerfectQuery.Valid, PerfectQuery.Sector, HashCount, CanonicalSlot, AllResolve;
    }
  }

  /** Over a decoded sector: if everything in it resolves, both answers read one entry. */
  lemma DecodedAnswers(src: Source, q: PerfectQuery) returns (raw: RawEval)
    requires src.Valid() && q.Valid() && !q.onlyStoneTaking && src.Load(q.Sector()).Ok?
    ensures var value := src.Load(q.Sector()).value.0;
            || (&& WdlAnswer(src, q) == Ok(Some(WdlOf(raw.key1 + value, src.virtWin, src.virtLoss)))
                && RawAnswer(src, q) == Ok(Some(DatabaseEval(raw, value))))
            || (&& WdlAnswer(src, q) == Err(Panicked)
                && (RawAnswer(src, q) == Err(ParseFailed(q.Sector()))
                  || (RawAnswer(src, q).Ok? && RawAnswer(src, q).value.Some?)))
  {
    SlotInSector(src, q);
    BoardIsGroup();
    var id, slot := q.Sector(), CanonicalSlot(q);
    var (value, evals) := src.Load(id).value;
    hide Group.Valid, HashCount, TargetSlot, CanonicalSlot, Source.Load, Source.Valid, PerfectQuery.Valid,
         PerfectQuery.Sector, BOARD;
    if AllResolve(BOARD, id.whiteOnBoard, id.blackOnBoard, evals) {
      assert SlotResolves(BOARD, id.whiteOnBoard, id.blackOnBoard, evals, slot);
      SixteenOps();
      raw := Resolved(BOARD, id.whiteOnBoard, id.blackOnBoard, evals, slot);
    } else {
      raw := evals[slot];
    }
  }

  lemma SixteenOps()
    ensures |BOARD.ops| == 16
  {}

  // ---------------------------------------------------------------- the database

  /** A hasher built for the counts of a sector. */
  ghost predicate HasherFor(h: Hasher, id: SectorId) {
    h.Valid() && h.g == BOARD && h.whites == id.whiteOnBoard && h.blacks == id.blackOnBoard
  }

  /** PerfectHasher::new for a sector. */
  method NewHasher(id: SectorId) returns (h: Hasher)
    requires id.Valid()
    ensures HasherFor(h, id)
  {
    BoardIsGroup();
    h := PerfectHasher.New(BOARD, id.whiteOnBoard, id.blackOnBoard);
  }

  datatype LoadedSector = LoadedSector(value: int, hasher: Hasher, evals: seq<RawEval>)

  /** A cached sector is what loading it would give. */
  ghost predicate Faithful(src: Source, id: SectorId, s: LoadedSector) {
    id.Valid() && src.Load(id) == Ok((s.value, s.evals)) && HasherFor(s.hasher, id)
  }

  /** The queue lists the cached sectors, and each is faithful to the source. */
  ghost predicate Cached(src: Source, sectors: map<SectorId, LoadedSector>, order: seq<SectorId>) {
    Tracks(order, sectors.Keys) && forall id :: id in sectors ==> Faithful(src, id, sectors[id])
  }

  lemma CachedCount(src: Source, sectors: map<SectorId, LoadedSector>, order: seq<SectorId>)
    requires Cached(src, sectors, order)
    ensures |order| == |sectors|
  {
    TracksCount(order, sectors.Keys);
  }

  lemma CachedPop(src: Source, sectors: map<SectorId, LoadedSector>, order: seq<SectorId>)
    requires Cached(src, sectors, order) && order != []
    ensures order[0] in sectors && Cached(src, sectors - {order[0]}, order[1..])
  {
    hide Tracks, Faithful;
    PopFront(order, sectors.Keys);
    assert (sectors - {order[0]}).Keys == sectors.Keys - {order[0]};
  }

  lemma CachedPush(src: Source, sectors: map<SectorId, LoadedSector>, order: seq<SectorId>, id: SectorId,
          s: LoadedSector)
    requires Cached(src, sectors, order) && id !in sectors && Faithful(src, id, s)
    ensures Cached(src, sectors[id := s], order + [id])
  {
    hide Tracks, Faithful;
    PushBack(order, sectors.Keys, id);
    assert sectors[id := s].Keys == sectors.Keys + {id};
  }

  /** The queue tells whether a key is cached. */
  lemma CachedMember(src: Source, sectors: map<SectorId, LoadedSector>, order: seq<SectorId>, id: SectorId)
    requires Cached(src, sectors, order)
    ensures id in order <==> id in sectors
    ensures id in sectors ==> Faithful(src, id, sectors[id])
  {}

  class Database {
    const src: Source
    const capacity: Capacity
    var sectors: map<SectorId, LoadedSector>
    var sectorLoadOrder: seq<SectorId>

    ghost predicate Valid()
      reads this
    {
      && src.Valid() && capacity != AtMost(0)
      && Cached(src, sectors, sectorLoadOrder)
      && Fits(sectorLoadOrder, capacity)
    }

    /** with_options: a zero capacity is refused. */
    constructor (src: Source, capacity: Capacity)
      requires src.Valid()
      requires capacity != AtMost(0)
      ensures Valid() && this.src == src && this.capacity == capacity && sectorLoadOrder == []
    {
      this.src, this.capacity := src, capacity;
      sectors, sectorLoadOrder := map[], [];
    }

    /** evict_sector_for_insert: neither of its panics can happen. */
    method EvictSectorForInsert()
      requires Valid()
      modifies this`sectors, this`sectorLoadOrder
      ensures Valid()
      ensures sectorLoadOrder == Evicted(old(sectorLoadOrder), capacity)
      ensures capacity.AtMost? ==> |sectorLoadOrder| < capacity.limit
    {
      hide *;
      DatabaseParts(this);
      EvictedIs(sectorLoadOrder, capacity);
      if capacity.AtMost? {
        while |sectors| >= capacity.limit
          invariant Cached(src, sectors, sectorLoadOrder)
          invariant |sectorLoadOrder| == |sectors| <= capacity.limit
          invariant sectorLoadOrder == if |sectors| >= capacity.limit then old(sectorLoadOrder)
                    else Evicted(old(sectorLoadOrder), capacity)
          decreases |sectors|
        {
          assert sectorLoadOrder != [];
          CachedPop(src, sectors, sectorLoadOrder);
          var evicted := sectorLoadOrder[0];
          sectorLoadOrder := sectorLoadOrder[1..];
          assert evicted in sectors;
          sectors := sectors - {evicted};
          CachedCount(src, sectors, sectorLoadOrder);
        }
      }
      DatabaseFrom(this);
    }

    /** load_sector: a failed load leaves the cache as it was. */
    method LoadSector(id: SectorId) returns (r: Result<LoadedSector>)
      requires Valid() && id.Valid()
      modifies this`sectors, this`sectorLoadOrder
      ensures Valid()
      ensures r.Ok? <==> src.Load(id).Ok?
      ensures r.Ok? ==> Faithful(src, id, r.value)
      ensures r.Err? ==> src.Load(id) == Err(r.error) && sectors == old(sectors)
      ensures sectorLoadOrder == if r.Ok? then AfterLoad(old(sectorLoadOrder), capacity, id) else old(sectorLoadOrder)
    {
      hide Faithful, Cached, Source.Valid, HasherFor, SectorId.Valid, Evicted;
      CachedMember(src, sectors, sectorLoadOrder, id);
      if id !in sectors {
        var loaded := src.Load(id);
        if loaded.Err? {
          return Err(loaded.error);
        }
        var hasher := NewHasher(id);
        EvictSectorForInsert();
        EvictedKeeps(old(sectorLoadOrder), capacity, id);
        var sector := LoadedSector(loaded.value.0, hasher, loaded.value.1);
        IsFaithful(src, id, sector);
        CachedMember(src, sectors, sectorLoadOrder, id);
        CachedPush(src, sectors, sectorLoadOrder, id, sector);
        sectors := sectors[id := sector];
        sectorLoadOrder := sectorLoadOrder + [id];
      } else {
        CachedLoads(src, id, sectors[id]);
      }
      r := Ok(sectors[id]);
    }

    /** evaluate_raw: whatever is cached, the answer is the source's. */
    method EvaluateRaw(q: PerfectQuery) returns (r: Result<Option<DatabaseEval>>)
      requires Valid() && q.Valid()
      modifies this`sectors, this`sectorLoadOrder
      ensures Valid()
      ensures r == RawAnswer(src, q)
      ensures sectorLoadOrder == if q.onlyStoneTaking || src.Load(q.Sector()).Err? then old(sectorLoadOrder)
                                 else AfterLoad(old(sectorLoadOrder), capacity, q.Sector())
    {
      hide *;
      DatabaseIsSound(this);
      if q.onlyStoneTaking {
        RawUnfolds(src, q);
        return Ok(None);
      }
      var id, board := q.Sector(), q.Board();
      FoldIsBoard(q);
      RawUnfolds(src, q);
      var loaded := LoadSector(id);
      if loaded.Err? {
        return Err(loaded.error);
      }
      var sector := loaded.value;
      SlotInSector(src, q);
      SectorParts(src, q, sector);
      var probe := HashProbe(sector.hasher, board);
      var raw := sector.evals[probe.index];
      if raw.IsRedirect() {
        if raw.Operation() >= 16 {
          return Err(ParseFailed(id));
        }
        RedirectParts(src, q, sector, raw.Operation());
        var redirected := BOARD.T48(raw.Operation(), probe.canonicalBoard);
        var slot := DirectHashIndex(sector.hasher, redirected);
        raw := sector.evals[slot];
        if raw.IsRedirect() {
          return Err(ParseFailed(id));
        }
      }
      r := Ok(Some(DatabaseEval(raw, sector.value)));
    }

    /** evaluate_outcome. */
    method EvaluateOutcome(q: PerfectQuery) returns (r: Result<Option<PerfectOutcome>>)
      requires Valid() && q.Valid()
      modifies this`sectors, this`sectorLoadOrder
      ensures Valid()
      ensures r == OutcomeAnswer(src, q)
    {
      var raw := EvaluateRaw(q);
      match raw
      case Err(e) => r := Err(e);
      case Ok(None) => r := Ok(None);
      case Ok(Some(eval)) => r := Ok(Some(eval.ToOutcome(src)));
    }
  }

  lemma DatabaseIsSound(db: Database)
    requires db.Valid()
    ensures db.src.Valid() && db.capacity != AtMost(0)
  {}

  lemma DatabaseParts(db: Database)
    requires db.Valid()
    ensures db.src.Valid() && db.capacity != AtMost(0)
    ensures Cached(db.src, db.sectors, db.sectorLoadOrder) && Fits(db.sectorLoadOrder, db.capacity)
    ensures |db.sectorLoadOrder| == |db.sectors|
    ensures db.capacity.AtMost? ==> 0 < db.capacity.limit && |db.sectors| <= db.capacity.limit
  {
    hide Source.Valid, Cached;
    CachedCount(db.src, db.sectors, db.sectorLoadOrder);
  }

  lemma DatabaseFrom(db: Database)
    requires db.src.Valid() && db.capacity != AtMost(0)
    requires Cached(db.src, db.sectors, db.sectorLoadOrder)
    requires db.capacity.AtMost? ==> |db.sectorLoadOrder| <= db.capacity.limit
    ensures db.Valid()
  {
    hide Source.Valid, Cached;
  }

  lemma IsFaithful(src: Source, id: SectorId, s: LoadedSector)
    requires id.Valid() && src.Load(id) == Ok((s.value, s.evals)) && HasherFor(s.hasher, id)
    ensures Faithful(src, id, s)
  {}

  lemma CachedLoads(src: Source, id: SectorId, s: LoadedSector)
    requires Faithful(src, id, s)
    ensures id.Valid() && src.Load(id) == Ok((s.value, s.evals)) && HasherFor(s.hasher, id)
  {}

  /** The shape of the answer, case by case. */
  lemma RawUnfolds(src: Source, q: PerfectQuery)
    requires src.Valid() && q.Valid()
    ensures q.onlyStoneTaking ==> RawAnswer(src, q) == Ok(None)
    ensures !q.onlyStoneTaking && src.Load(q.Sector()).Err? ==> RawAnswer(src, q) == Err(src.Load(q.Sector()).error)
    ensures !q.onlyStoneTaking && src.Load(q.Sector()).Ok? ==>
              (SlotInSector(src, q);
               var (value, evals) := src.Load(q.Sector()).value;
               var raw := evals[CanonicalSlot(q)];
               && (!raw.IsRedirect() ==> RawAnswer(src, q) == Ok(Some(DatabaseEval(raw, value))))
               && (raw.IsRedirect() && raw.Operation() >= 16 ==> RawAnswer(src, q) == Err(ParseFailed(q.Sector()))))
  {
    hide HashCount, CanonicalSlot, Source.Load, Source.Valid, PerfectQuery.Valid, PerfectQuery.Sector, BOARD;
  }

  /** What a loaded sector knows of a query's board. */
  lemma SectorParts(src: Source, q: PerfectQuery, s: LoadedSector)
    requires src.Valid() && q.Valid() && Faithful(src, q.Sector(), s)
    ensures HasherFor(s.hasher, q.Sector()) && s.hasher.Valid() && src.Load(q.Sector()) == Ok((s.value, s.evals))
    ensures s.hasher.g == BOARD && BOARD.n == 24 && |BOARD.ops| == 16
    ensures IsBoard(s.hasher.g.n, s.hasher.whites, s.hasher.blacks, q.Board())
    ensures BOARD.Valid()
    ensures s.hasher.whites <= BOARD.n <= POINTS
    ensures ProbeIndex(s.hasher.g, s.hasher.whites, s.hasher.blacks, q.Board()) == CanonicalSlot(q)
  {
    FoldIsBoard(q);
    BoardIsGroup();
    hide Hasher.Valid, Group.Valid, ProbeIndex, PerfectQuery.Sector, PerfectQuery.Board, PerfectQuery.Valid, IsBoard,
         Source.Valid;
  }

  /** Following a redirect from the canonical board lands where the answer reads. */
  lemma RedirectParts(src: Source, q: PerfectQuery, s: LoadedSector, operation: nat)
    requires src.Valid() && q.Valid() && !q.onlyStoneTaking && Faithful(src, q.Sector(), s) && operation < 16
    requires src.Load(q.Sector()).Ok? && CanonicalSlot(q) < |s.evals|
    requires s.evals[CanonicalSlot(q)].IsRedirect() && s.evals[CanonicalSlot(q)].Operation() == operation
    requires operation < |BOARD.ops|
    ensures var b := BOARD.T48(operation, Canon(BOARD, q.Board()));
            && BOARD.Valid() && s.hasher.Valid() && s.hasher.g == BOARD && s.hasher.whites <= BOARD.n
            && IsBoard(BOARD.n, s.hasher.whites, s.hasher.blacks, b)
            && var slot := DirectIndex(BOARD, s.hasher.whites, s.hasher.blacks, b);
            && slot < |s.evals|
            && RawAnswer(src, q) == if s.evals[slot].IsRedirect() then Err(ParseFailed(q.Sector()))
                                    else Ok(Some(DatabaseEval(s.evals[slot], s.value)))
  {
    SlotInSector(src, q);
    FoldIsBoard(q);
    BoardIsGroup();
    var id, board := q.Sector(), q.Board();
    ProbeRoundTrip(BOARD, id.whiteOnBoard, id.blackOnBoard, board);
    CanonIsSeedBoard(BOARD, id.whiteOnBoard, id.blackOnBoard, board);
    T48Board(BOARD, operation, id.whiteOnBoard, id.blackOnBoard, Canon(BOARD, board));
    hide Hasher.Valid, Group.Valid, ProbeIndex, PerfectQuery.Sector, PerfectQuery.Board, PerfectQuery.Valid, IsBoard,
         Source.Valid, Source.Load, HashCount, Canon, Group.T48, InverseBoard, DirectIndex, BOARD;
    TargetInRange(BOARD, id.whiteOnBoard, id.blackOnBoard, s.evals, CanonicalSlot(q));
  }

  // ---------------------------------------------------------------- what is read

  /** The outcome's steps are the second key of the entry read, and its letter is that of the entry's
      absolute value. */
  lemma OutcomeReads(src: Source, q: PerfectQuery)
    requires src.Valid() && q.Valid() && src.virtWin != src.virtLoss
    ensures OutcomeAnswer(src, q).Ok? && OutcomeAnswer(src, q).value.Some? <==>
              RawAnswer(src, q).Ok? && RawAnswer(src, q).value.Some?
    ensures RawAnswer(src, q).Ok? && RawAnswer(src, q).value.Some? ==>
              var (e, o) := (RawAnswer(src, q).value.value, OutcomeAnswer(src, q).value.value);
              && o.steps == e.raw.key2
              && (o.Win? <==> e.raw.key1 + e.sectorValue == src.virtWin)
              && (o.Loss? <==> e.raw.key1 + e.sectorValue == src.virtLoss)
  {
    hide RawAnswer, Source.Valid, PerfectQuery.Valid;
  }

  /** What evaluate_raw answers when the canonical slot holds a redirect written for operation op: the
      entry in the slot of what op makes of the canonical board. */
  lemma WrittenRedirectIsRead(src: Source, q: PerfectQuery, s: LoadedSector, op: nat)
    requires src.Valid() && q.Valid() && !q.onlyStoneTaking && Faithful(src, q.Sector(), s) && op < 16
    requires CanonicalSlot(q) < |s.evals| && s.evals[CanonicalSlot(q)] == RawEval(0, -(op as int) - 1)
    ensures op < |BOARD.ops| && BOARD.Valid() && s.hasher.whites <= BOARD.n
    ensures var b := BOARD.T48(op, Canon(BOARD, q.Board()));
            && IsBoard(BOARD.n, s.hasher.whites, s.hasher.blacks, b)
            && var slot := DirectIndex(BOARD, s.hasher.whites, s.hasher.blacks, b);
            && slot < |s.evals|
            && RawAnswer(src, q) == if s.evals[slot].IsRedirect() then Err(ParseFailed(q.Sector()))
                                    else Ok(Some(DatabaseEval(s.evals[slot], s.value)))
  {
    hide *;
    CachedLoads(src, q.Sector(), s);
    BoardIsGroup();
    SymIsRead(op);
    RedirectParts(src, q, s, op);
  }
}
