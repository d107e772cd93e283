/** The cache of loaded hash tables in the C++ engine: a set ordered by access time and a
    map from sector to time, mirroring each other, which together keep the eight most
    recently used sectors loaded. */
module HashCache {
  import opened Evals
  import opened EngineSector
  import opened Fifo

  /** Hash tables kept loaded. */
  const LIMIT: nat := 8

  // ---------------------------------------------------------------- the abstract cache

  function Without<T(==)>(s: seq<T>, x: T): seq<T> {
    if s == [] then [] else if s[0] == x then Without(s[1..], x) else [s[0]] + Without(s[1..], x)
  }

  /** Sectors in order of last use, oldest first, after x is used. */
  function Used<T(==)>(order: seq<T>, x: T): seq<T> {
    (if x in order then Without(order, x) else if |order| == LIMIT then order[1..] else order) + [x]
  }

  /** The cache after a run of accesses. */
  function Run<T(==)>(accesses: seq<T>): seq<T> {
    if accesses == [] then []
    else Used(Run(accesses[..|accesses| - 1]), accesses[|accesses| - 1])
  }

  /** Everything ever accessed, in order of last use. */
  function ByLastUse<T(==)>(accesses: seq<T>): seq<T> {
    if accesses == [] then []
    else Without(ByLastUse(accesses[..|accesses| - 1]), accesses[|accesses| - 1]) + [accesses[|accesses| - 1]]
  }

  function LastFew<T>(s: seq<T>): seq<T> {
    if |s| <= LIMIT then s else s[|s| - LIMIT..]
  }

  lemma {:induction false} WithoutFacts<T(!new)>(s: seq<T>, x: T)
    ensures forall y :: y in Without(s, x) <==> y in s && y != x
    ensures Distinct(s) ==> Distinct(Without(s, x))
    ensures x !in s ==> Without(s, x) == s
    ensures Distinct(s) && x in s ==> |Without(s, x)| == |s| - 1
  {
    if s != [] {
      assert s == [s[0]] + s[1..];
      WithoutFacts(s[1..], x);
      if Distinct(s) {
        assert Distinct(s[1..]) by {
          forall i, j | 0 <= i < j < |s[1..]| ensures s[1..][i] != s[1..][j] { assert s[i + 1] != s[j + 1]; }
        }
        assert s[0] !in s[1..];
        if s[0] != x { DistinctPrepend(s[0], Without(s[1..], x)); }
      }
    }
  }

  lemma DistinctPrepend<T(!new)>(x: T, s: seq<T>)
    requires Distinct(s) && x !in s
    ensures Distinct([x] + s)
  {}

  lemma DistinctAppend<T(!new)>(s: seq<T>, x: T)
    requires Distinct(s) && x !in s
    ensures Distinct(s + [x])
  {}

  lemma {:induction false} WithoutAppend<T(!new)>(a: seq<T>, b: seq<T>, x: T)
    ensures Without(a + b, x) == Without(a, x) + Without(b, x)
  {
    if a == [] {
      assert a + b == b;
    } else {
      assert (a + b)[1..] == a[1..] + b;
      WithoutAppend(a[1..], b, x);
    }
  }

  lemma {:induction false} ByLastUseFacts<T(!new)>(accesses: seq<T>)
    ensures Distinct(ByLastUse(accesses))
    ensures forall y :: y in ByLastUse(accesses) <==> y in accesses
  {
    if accesses != [] {
      var front, x := accesses[..|accesses| - 1], accesses[|accesses| - 1];
      assert accesses == front + [x];
      ByLastUseFacts(front);
      WithoutFacts(ByLastUse(front), x);
      DistinctAppend(Without(ByLastUse(front), x), x);
    }
  }

  /** The cache always holds the most recently used sectors, as many as fit. */
  lemma {:induction false} RunIsLastFew<T(!new)>(accesses: seq<T>)
    ensures Run(accesses) == LastFew(ByLastUse(accesses))
  {
    if accesses != [] {
      var front, x := accesses[..|accesses| - 1], accesses[|accesses| - 1];
      RunIsLastFew(front);
      ByLastUseFacts(front);
      UsedIsLastFew(ByLastUse(front), x);
    }
  }

  lemma LastFewKeeps<T(!new)>(a: seq<T>, b: seq<T>)
    ensures |b| == LIMIT || (a == [] && |b| <= LIMIT) ==> LastFew(a + b) == b
    ensures |b| == LIMIT + 1 ==> LastFew(a + b) == b[1..]
  {}

  lemma LastFewSplits<T(!new)>(all: seq<T>) returns (gone: seq<T>, kept: seq<T>)
    requires Distinct(all)
    ensures all == gone + kept && kept == LastFew(all) && (gone == [] || |kept| == LIMIT)
    ensures Distinct(kept) && forall x :: x in kept ==> x !in gone
  {
    kept := LastFew(all);
    gone := all[..|all| - |kept|];
    assert all == gone + kept;
    forall i, j | 0 <= i < j < |kept| ensures kept[i] != kept[j] { assert all[|gone| + i] != all[|gone| + j]; }
    forall i, j | 0 <= i < |gone| && 0 <= j < |kept| ensures gone[i] != kept[j] { assert all[i] != all[|gone| + j]; }
  }

  lemma UsedIsLastFew<T(!new)>(all: seq<T>, x: T)
    requires Distinct(all)
    ensures Used(LastFew(all), x) == LastFew(Without(all, x) + [x])
  {
    var gone, kept := LastFewSplits(all);
    WithoutAppend(gone, kept, x);
    WithoutFacts(gone, x);
    WithoutFacts(kept, x);
    if x in kept {
      UsedKept(gone, kept, x);
    } else {
      UsedNew(gone, kept, x);
    }
  }

  lemma UsedKept<T(!new)>(gone: seq<T>, kept: seq<T>, x: T)
    requires x in kept && Without(gone, x) == gone && (gone == [] || |kept| == LIMIT) && |kept| <= LIMIT
    requires |Without(kept, x)| == |kept| - 1
    ensures Used(kept, x) == LastFew(gone + Without(kept, x) + [x])
  {
    hide LastFew, Without;
    var next := Without(kept, x) + [x];
    LastFewKeeps(gone, next);
    assert gone + Without(kept, x) + [x] == gone + next;
  }

  lemma UsedNew<T(!new)>(gone: seq<T>, kept: seq<T>, x: T)
    requires x !in kept && (gone == [] || |kept| == LIMIT) && |kept| <= LIMIT && Without(kept, x) == kept
    ensures Used(kept, x) == LastFew(Without(gone, x) + Without(kept, x) + [x])
  {
    var w := Without(gone, x);
    assert gone == [] ==> w == [];
    hide LastFew, Without;
    var next := kept + [x];
    LastFewKeeps(w, next);
    assert w + kept + [x] == w + next;
    assert |kept| == LIMIT ==> next[1..] == kept[1..] + [x];
  }

  // ---------------------------------------------------------------- who is loaded

  /** Where x was last accessed. */
  function LastIndex<T(==)>(accesses: seq<T>, x: T): (i: nat)
    requires x in accesses
    ensures i < |accesses| && accesses[i] == x && x !in accesses[i + 1..]
    decreases |accesses|
  {
    var n := |accesses| - 1;
    if accesses[n] == x then n
    else
      assert accesses == accesses[..n] + [accesses[n]];
      var i := LastIndex(accesses[..n], x);
      assert accesses[i + 1..] == accesses[..n][i + 1..] + [accesses[n]];
      i
  }

  /** The sectors accessed since x last was. */
  ghost function Since<T(!new)>(accesses: seq<T>, x: T): set<T>
    requires x in accesses
  {
    Elements(accesses[LastIndex(accesses, x) + 1..])
  }

  ghost function Elements<T(!new)>(s: seq<T>): set<T> { set y | y in s }

  lemma {:induction false} SplitAtLastUse<T(!new)>(accesses: seq<T>, x: T) returns (p: seq<T>, s: seq<T>)
    requires x in accesses
    ensures ByLastUse(accesses) == p + [x] + s
    ensures forall y :: y in s <==> y in Since(accesses, x)
  {
    var n := |accesses| - 1;
    var front, z := accesses[..n], accesses[n];
    assert accesses == front + [z];
    ByLastUseUnfolds(accesses);
    if z == x {
      p, s := Without(ByLastUse(front), x), [];
    } else {
      var p0, s0 := SplitAtLastUse(front, x);
      WithoutAppend(p0 + [x], s0, z);
      WithoutAppend(p0, [x], z);
      WithoutFacts(s0, z);
      assert Without([x], z) == [x];
      SinceGrows(accesses, x);
      hide Without, ByLastUse, LastIndex, Since, Elements;
      p, s := Without(p0, z), Without(s0, z) + [z];
    }
  }

  lemma ByLastUseUnfolds<T(!new)>(accesses: seq<T>)
    requires accesses != []
    ensures ByLastUse(accesses) == Without(ByLastUse(accesses[..|accesses| - 1]), accesses[|accesses| - 1])
            + [accesses[|accesses| - 1]]
  {}

  lemma SinceGrows<T(!new)>(accesses: seq<T>, x: T)
    requires accesses != [] && x in accesses[..|accesses| - 1] && accesses[|accesses| - 1] != x
    ensures Since(accesses, x) == Since(accesses[..|accesses| - 1], x) + {accesses[|accesses| - 1]}
  {
    var front, z := accesses[..|accesses| - 1], accesses[|accesses| - 1];
    assert accesses[LastIndex(accesses, x) + 1..] == front[LastIndex(front, x) + 1..] + [z];
  }

  /** A sector is loaded exactly when it has been accessed, and fewer than eight others have
      been accessed since. */
  lemma LoadedIff<T(!new)>(accesses: seq<T>, x: T)
    ensures x in Run(accesses) <==> x in accesses && |Since(accesses, x)| < LIMIT
  {
    RunIsLastFew(accesses);
    ByLastUseFacts(accesses);
    if x in accesses {
      var p, s := SplitAtLastUse(accesses, x);
      var all := ByLastUse(accesses);
      assert Distinct(s) by {
        forall i, j | 0 <= i < j < |s| ensures s[i] != s[j] { assert all[|p| + 1 + i] != all[|p| + 1 + j]; }
      }
      TracksCount(s, Since(accesses, x));
      assert all[|p|] == x;
      if |s| < LIMIT {
        var kept := LastFew(all);
        assert kept[|kept| - 1 - |s|] == x;
      } else {
        assert LastFew(all) == s[|s| - LIMIT..];
        forall i | 0 <= i < |s| ensures s[i] != x { assert all[|p|] != all[|p| + 1 + i]; }
      }
    }
  }

  lemma RunOfNothing<T(!new)>()
    ensures forall accesses: seq<T> :: Run(accesses[..0]) == []
  {}

  lemma RunNext<T(!new)>(accesses: seq<T>, i: nat)
    requires i < |accesses|
    ensures Run(accesses[..i + 1]) == Used(Run(accesses[..i]), accesses[i])
  {
    assert accesses[..i + 1][..i] == accesses[..i];
  }

  // ---------------------------------------------------------------- the two maps

  /** The sectors a run of accesses names, in order. */
  function Places(accesses: seq<(nat, nat)>): seq<nat> {
    seq(|accesses|, i requires 0 <= i < |accesses| => accesses[i].0)
  }

  lemma PlacesOf(accesses: seq<(nat, nat)>)
    ensures |Places(accesses)| == |accesses|
    ensures forall i :: 0 <= i < |accesses| ==> Places(accesses)[i] == accesses[i].0
  {}

  /** The sector objects are different ones. */
  ghost predicate Apart(sectors: seq<Sector>) {
    forall i, j :: 0 <= i < j < |sectors| ==> sectors[i] != sectors[j]
  }

  lemma ApartFrom(sectors: seq<Sector>, s: nat)
    requires Apart(sectors) && s < |sectors|
    ensures forall p: nat :: p < |sectors| && p != s ==> sectors[p] != sectors[s]
  {}

  /** The globals of the wrapper. A sector is referred to by its place among the sector objects. */
  class LoadedHashes {
    const sectors: seq<Sector>
    var byTime: set<(nat, nat)>
    var timeOf: map<nat, nat>
    var timestamp: nat
    ghost var order: seq<nat>

    ghost predicate Valid()
      reads this, sectors
    {
      && Apart(sectors)
      && Distinct(order) && |order| <= LIMIT
      && (forall p :: p in order ==> p < |sectors|)
      && (forall p: nat :: p < |sectors| ==> (sectors[p].hash != null <==> p in order))
      && Mirrored(order, byTime, timeOf, timestamp)
    }

    /** The same while the time of s is not recorded. */
    ghost predicate Unstamped(s: nat)
      reads this, sectors
    {
      && s < |sectors| && s !in order && |order| < LIMIT
      && Apart(sectors)
      && Distinct(order)
      && (forall p :: p in order ==> p < |sectors|)
      && (forall p: nat :: p < |sectors| && p != s ==> (sectors[p].hash != null <==> p in order))
      && Mirrored(order, byTime, timeOf, timestamp)
    }

    constructor (sectors: seq<Sector>)
      requires Apart(sectors)
      requires forall p: nat :: p < |sectors| ==> sectors[p].hash == null
      ensures Valid() && order == [] && this.sectors == sectors
    {
      this.sectors := sectors;
      byTime, timeOf, timestamp, order := {}, map[], 0, [];
    }

    /** WSector::hash: the answer is the sector's own, whatever has been loaded and released before.
        Allocation is taken to succeed. */
    method Access(s: nat, a: nat) returns (h: nat, e: RawEval)
      requires Valid() && s < |sectors|
      requires forall q :: q in sectors ==> q.Valid()
      requires sectors[s].Sound() && sectors[s].Answerable(a)
      modifies this`byTime, this`timeOf, this`timestamp, this`order, sectors
      ensures Valid() && forall q :: q in sectors ==> q.Valid()
      ensures order == Used(old(order), s)
      ensures sectors[s].hash != null
      ensures (h, e) == sectors[s].Answer(a)
    {
      hide *;
      UsedUnfolds(order, s);
      HashesParts(this);
      if sectors[s].hash == null {
        Load(s);
      } else {
        Unstamp(s);
      }
      Stamp(s);
      h, e := sectors[s].Ask(a);
    }

    /** Build the table of s, releasing one first if there are too many. */
    method Load(s: nat)
      requires Valid() && s < |sectors| && sectors[s].hash == null
      requires forall q :: q in sectors ==> q.Valid()
      modifies this`byTime, this`timeOf, this`order, sectors
      ensures Unstamped(s) && sectors[s].hash != null && s !in old(order)
      ensures forall q :: q in sectors ==> q.Valid()
      ensures order == if |old(order)| == LIMIT then old(order)[1..] else old(order)
    {
      hide *;
      HashesParts(this);
      if |byTime| == LIMIT {
        ReleaseOldest();
        HashesParts(this);
      }
      BuildTable(sectors, s);
      UnstampedFrom(this, s);
    }

    /** Forget when s was last used. */
    method Unstamp(s: nat)
      requires Valid() && s < |sectors| && sectors[s].hash != null
      modifies this`byTime, this`timeOf, this`order
      ensures Unstamped(s) && s in old(order) && order == Without(old(order), s)
    {
      hide *;
      HashesParts(this);
      WithoutFacts(order, s);
      MirroredWithout(order, byTime, timeOf, timestamp, s);
      byTime, timeOf, order := byTime - {(timeOf[s], s)}, timeOf - {s}, Without(order, s);
      UnstampedFrom(this, s);
    }

    /** A whole run of accesses, from the empty cache: every answer is the sector's own, the loaded
        tables are the last eight distinct sectors by last use, and a sector is loaded exactly when
        fewer than eight others were used since. */
    method AccessAll(accesses: seq<(nat, nat)>) returns (answers: seq<(nat, RawEval)>)
      requires Valid() && order == [] && forall q :: q in sectors ==> q.Valid()
      requires forall c :: c in accesses ==> c.0 < |sectors| && sectors[c.0].Sound() && sectors[c.0].Answerable(c.1)
      modifies this`byTime, this`timeOf, this`timestamp, this`order, sectors
      ensures Valid() && forall q :: q in sectors ==> q.Valid()
      ensures |answers| == |accesses|
      ensures forall i :: 0 <= i < |accesses| ==> answers[i] == sectors[accesses[i].0].Answer(accesses[i].1)
      ensures order == LastFew(ByLastUse(Places(accesses)))
      ensures forall p: nat :: p < |sectors| ==>
                (sectors[p].hash != null <==> p in Places(accesses) && |Since(Places(accesses), p)| < 8)
    {
      hide *;
      answers := [];
      PlacesOf(accesses);
      ghost var places := Places(accesses);
      RunOfNothing<nat>();
      for i := 0 to |accesses|
        invariant Valid() && order == Run(places[..i]) && |answers| == i
        invariant forall q :: q in sectors ==> q.Valid()
        invariant forall j :: 0 <= j < i ==> answers[j] == sectors[accesses[j].0].Answer(accesses[j].1)
      {
        var c := accesses[i];
        assert c in accesses;
        RunNext(places, i);
        var h, e := Access(c.0, c.1);
        answers := answers + [(h, e)];
      }
      assert places[..|accesses|] == places;
      RunIsLastFew(places);
      HashesParts(this);
      forall p: nat | p < |sectors|
        ensures sectors[p].hash != null <==> p in places && |Since(places, p)| < 8
      {
        LoadedIff(places, p);
      }
    }

    /** Record the present time for s. */
    method Stamp(s: nat)
      requires Unstamped(s) && sectors[s].hash != null
      modifies this`byTime, this`timeOf, this`timestamp, this`order
      ensures Valid() && order == old(order) + [s]
    {
      hide *;
      UnstampedParts(this, s);
      MirroredAdd(order, byTime, timeOf, timestamp, s);
      DistinctAppend(order, s);
      byTime, timeOf, order := byTime + {(timestamp, s)}, timeOf[s := timestamp], order + [s];
      timestamp := timestamp + 1;
      HashesFrom(this);
    }

    /** Release one table when there are too many. */
    method ReleaseOldest()
      requires Valid() && order != [] && forall q :: q in sectors ==> q.Valid()
      modifies this`byTime, this`timeOf, this`order, sectors
      ensures Valid() && order == old(order)[1..] && |byTime| == |order|
      ensures old(order)[0] !in order
      ensures forall q :: q in sectors ==> q.Valid()
    {
      hide *;
      HashesParts(this);
      DistinctTail(order);
      var p := ForgetOldest();
      assert p in old(order);
      FreeTable(sectors, p);
      HashesFrom(this);
      HashesParts(this);
    }

    /** Drop the front of the ordered set, and its sector from the map. */
    method ForgetOldest() returns (p: nat)
      requires Mirrored(order, byTime, timeOf, timestamp) && Distinct(order) && order != []
      modifies this`byTime, this`timeOf, this`order
      ensures p == old(order)[0] && order == old(order)[1..]
      ensures Mirrored(order, byTime, timeOf, timestamp)
    {
      hide *;
      MirroredOldest(order, byTime, timeOf, timestamp);
      var oldest: (nat, nat) :| Oldest(byTime, oldest);
      OldestIsFirst(order, byTime, timeOf, timestamp, oldest);
      p := oldest.1;
      byTime, timeOf, order := byTime - {oldest}, timeOf - {p}, order[1..];
    }
  }

  /** Release the table of one sector; the others keep theirs. */
  method FreeTable(sectors: seq<Sector>, s: nat)
    requires Apart(sectors) && s < |sectors| && forall q :: q in sectors ==> q.Valid()
    modifies sectors[s]
    ensures sectors[s].hash == null && forall q :: q in sectors ==> q.Valid()
    ensures forall p: nat :: p < |sectors| && p != s ==> sectors[p].hash == old(sectors[p].hash)
  {
    hide *;
    ApartFrom(sectors, s);
    sectors[s].ReleaseHash();
  }

  /** Build the table of one sector; the others keep theirs. */
  method BuildTable(sectors: seq<Sector>, s: nat)
    requires Apart(sectors) && s < |sectors| && sectors[s].hash == null && forall q :: q in sectors ==> q.Valid()
    modifies sectors[s]
    ensures sectors[s].hash != null && forall q :: q in sectors ==> q.Valid()
    ensures forall p: nat :: p < |sectors| && p != s ==> sectors[p].hash == old(sectors[p].hash)
  {
    hide *;
    ApartFrom(sectors, s);
    sectors[s].AllocateHash();
  }

  /** begin() of the set ordered by pairs. */
  predicate Oldest(byTime: set<(nat, nat)>, p: (nat, nat)) {
    p in byTime && forall q :: q in byTime ==> p.0 < q.0 || (p.0 == q.0 && p.1 <= q.1)
  }

  lemma UsedUnfolds(order: seq<nat>, x: nat)
    ensures Used(order, x)
            == (if x in order then Without(order, x) else if |order| == LIMIT then order[1..] else order) + [x]
  {}

  lemma HashesParts(c: LoadedHashes)
    requires c.Valid()
    ensures Apart(c.sectors)
    ensures forall p: nat :: p < |c.sectors| ==> (c.sectors[p].hash != null <==> p in c.order)
    ensures forall p :: p in c.order ==> p < |c.sectors|
    ensures Distinct(c.order) && Mirrored(c.order, c.byTime, c.timeOf, c.timestamp)
    ensures |c.byTime| == |c.order| <= LIMIT == 8
  {
    MirroredCount(c.order, c.byTime, c.timeOf, c.timestamp);
  }

  lemma UnstampedParts(c: LoadedHashes, s: nat)
    requires c.Unstamped(s)
    ensures s < |c.sectors| && s !in c.order && |c.order| < LIMIT && Distinct(c.order)
    ensures Apart(c.sectors)
    ensures forall p :: p in c.order ==> p < |c.sectors|
    ensures forall p: nat :: p < |c.sectors| && p != s ==> (c.sectors[p].hash != null <==> p in c.order)
    ensures Mirrored(c.order, c.byTime, c.timeOf, c.timestamp)
  {}

  lemma UnstampedFrom(c: LoadedHashes, s: nat)
    requires s < |c.sectors| && s !in c.order && |c.order| < LIMIT && Distinct(c.order)
    requires Apart(c.sectors)
    requires forall p :: p in c.order ==> p < |c.sectors|
    requires forall p: nat :: p < |c.sectors| && p != s ==> (c.sectors[p].hash != null <==> p in c.order)
    requires Mirrored(c.order, c.byTime, c.timeOf, c.timestamp)
    ensures c.Unstamped(s)
  {}

  lemma HashesFrom(c: LoadedHashes)
    requires Apart(c.sectors)
    requires forall p: nat :: p < |c.sectors| ==> (c.sectors[p].hash != null <==> p in c.order)
    requires forall p :: p in c.order ==> p < |c.sectors|
    requires Distinct(c.order) && Mirrored(c.order, c.byTime, c.timeOf, c.timestamp)
    requires |c.order| <= LIMIT
    ensures c.Valid()
  {}

  /** Both maps list the keys of order, with times that increase along it. */
  ghost predicate Mirrored(order: seq<nat>, byTime: set<(nat, nat)>, timeOf: map<nat, nat>, timestamp: nat) {
    && (forall p :: p in timeOf <==> p in order)
    && (forall t, p :: (t, p) in byTime <==> p in timeOf && t == timeOf[p])
    && Ascends(order, timeOf)
    && (forall p :: p in timeOf ==> timeOf[p] < timestamp)
  }

  ghost predicate Ascends(order: seq<nat>, timeOf: map<nat, nat>) {
    && (forall p :: p in order ==> p in timeOf)
    && forall i, j :: 0 <= i < j < |order| ==> timeOf[order[i]] < timeOf[order[j]]
  }

  lemma DistinctTail(order: seq<nat>)
    requires Distinct(order) && order != []
    ensures Distinct(order[1..]) && forall p :: p in order[1..] <==> p in order && p != order[0]
  {
    assert order == [order[0]] + order[1..];
    forall i, j | 0 <= i < j < |order[1..]| ensures order[1..][i] != order[1..][j] {
      assert order[i + 1] != order[j + 1];
    }
  }

  lemma MirroredTail(order: seq<nat>, byTime: set<(nat, nat)>, timeOf: map<nat, nat>, timestamp: nat)
    requires Mirrored(order, byTime, timeOf, timestamp) && Distinct(order) && order != []
    ensures order[0] in timeOf && (timeOf[order[0]], order[0]) in byTime
    ensures Mirrored(order[1..], byTime - {(timeOf[order[0]], order[0])}, timeOf - {order[0]}, timestamp)
  {
    DistinctTail(order);
    assert order[0] in order;
    hide Distinct, Ascends;
    AscendsTail(order, timeOf);
    var s, next := order[0], order[1..];
    AscendsDrops(next, timeOf, s);
    PairOut(order, byTime, timeOf, next, s);
  }

  lemma AscendsTail(order: seq<nat>, timeOf: map<nat, nat>)
    requires Ascends(order, timeOf) && order != []
    ensures Ascends(order[1..], timeOf)
  {
    AscendsSkips(order, timeOf, 0);
    assert order[..0] + order[1..] == order[1..];
  }

  lemma PairOut(order: seq<nat>, byTime: set<(nat, nat)>, timeOf: map<nat, nat>, next: seq<nat>, s: nat)
    requires s in timeOf
    requires forall p :: p in timeOf <==> p in order
    requires forall t, p :: (t, p) in byTime <==> p in timeOf && t == timeOf[p]
    requires forall p :: p in next <==> p in order && p != s
    ensures forall p :: p in timeOf - {s} <==> p in next
    ensures forall t, p :: (t, p) in byTime - {(timeOf[s], s)} <==> p in timeOf - {s} && t == (timeOf - {s})[p]
  {}

  lemma {:induction false} MirroredCount(order: seq<nat>, byTime: set<(nat, nat)>, timeOf: map<nat, nat>,
          timestamp: nat)
    requires Mirrored(order, byTime, timeOf, timestamp) && Distinct(order)
    ensures |byTime| == |order|
    decreases |order|
  {
    forall p | p in byTime ensures p.1 in order { assert p == (p.0, p.1); }
    if order == [] {
      assert byTime == {};
    } else {
      MirroredTail(order, byTime, timeOf, timestamp);
      DistinctTail(order);
      MirroredCount(order[1..], byTime - {(timeOf[order[0]], order[0])}, timeOf - {order[0]}, timestamp);
    }
  }

  lemma MirroredOldest(order: seq<nat>, byTime: set<(nat, nat)>, timeOf: map<nat, nat>, timestamp: nat)
    requires Mirrored(order, byTime, timeOf, timestamp) && order != []
    ensures order[0] in timeOf && Oldest(byTime, (timeOf[order[0]], order[0]))
  {
    forall q | q in byTime ensures timeOf[order[0]] < q.0 || (timeOf[order[0]] == q.0 && order[0] <= q.1) {
      assert q == (q.0, q.1);
      var i :| 0 <= i < |order| && order[i] == q.1;
    }
    assert order[0] in order;
  }

  /** The evicted sector is the least recently used. */
  lemma OldestIsFirst(order: seq<nat>, byTime: set<(nat, nat)>, timeOf: map<nat, nat>, timestamp: nat,
          oldest: (nat, nat))
    requires Mirrored(order, byTime, timeOf, timestamp) && Distinct(order) && order != [] && Oldest(byTime, oldest)
    ensures order[0] in timeOf && oldest == (timeOf[order[0]], order[0])
    ensures Mirrored(order[1..], byTime - {oldest}, timeOf - {oldest.1}, timestamp)
  {
    MirroredOldest(order, byTime, timeOf, timestamp);
    MirroredTail(order, byTime, timeOf, timestamp);
  }

  lemma {:induction false} WithoutAt(order: seq<nat>, i: nat)
    requires Distinct(order) && i < |order|
    ensures Without(order, order[i]) == order[..i] + order[i + 1..]
  {
    assert order == order[..i] + ([order[i]] + order[i + 1..]);
    WithoutAppend(order[..i], [order[i]] + order[i + 1..], order[i]);
    WithoutFacts(order[..i], order[i]);
    WithoutFacts(order[i + 1..], order[i]);
    assert ([order[i]] + order[i + 1..])[1..] == order[i + 1..];
  }

  lemma MirroredWithout(order: seq<nat>, byTime: set<(nat, nat)>, timeOf: map<nat, nat>, timestamp: nat, s: nat)
    requires Mirrored(order, byTime, timeOf, timestamp) && Distinct(order) && s in order
    ensures s in timeOf
    ensures Mirrored(Without(order, s), byTime - {(timeOf[s], s)}, timeOf - {s}, timestamp)
  {
    hide Without, Distinct, Ascends;
    WithoutFacts(order, s);
    var k :| 0 <= k < |order| && order[k] == s;
    WithoutAt(order, k);
    AscendsSkips(order, timeOf, k);
    AscendsDrops(Without(order, s), timeOf, s);
    PairOut(order, byTime, timeOf, Without(order, s), s);
  }

  lemma AscendsSkips(order: seq<nat>, timeOf: map<nat, nat>, k: nat)
    requires Ascends(order, timeOf) && k < |order|
    ensures Ascends(order[..k] + order[k + 1..], timeOf)
  {
    var w := order[..k] + order[k + 1..];
    forall i | 0 <= i < |w| ensures w[i] == order[if i < k then i else i + 1] {}
  }

  lemma AscendsDrops(w: seq<nat>, timeOf: map<nat, nat>, s: nat)
    requires Ascends(w, timeOf) && s !in w
    ensures Ascends(w, timeOf - {s})
  {
    forall p | p in w ensures p in timeOf - {s} && (timeOf - {s})[p] == timeOf[p] {}
  }

  lemma MirroredAdd(order: seq<nat>, byTime: set<(nat, nat)>, timeOf: map<nat, nat>, timestamp: nat, s: nat)
    requires Mirrored(order, byTime, timeOf, timestamp) && s !in order
    ensures Mirrored(order + [s], byTime + {(timestamp, s)}, timeOf[s := timestamp], timestamp + 1)
  {
    var next := timeOf[s := timestamp];
    forall i, j | 0 <= i < j < |order + [s]| ensures next[(order + [s])[i]] < next[(order + [s])[j]] {
      assert order[i] in order;
      if j < |order| { assert order[j] in order; }
    }
  }
}
