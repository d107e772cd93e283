/** Work units: the sector graph with twin sectors merged, as objects that know their parents
    and count their children. */
module WorkUnits {
  import opened Ids
  import opened SectorGraph

  class Wu {
    const id: Id
    var isTwine: bool
    var parents: set<Wu>
    var childCount: nat

    constructor (myId: Id)
      ensures id == myId && !isTwine && parents == {} && childCount == 0
    {
      id, isTwine, parents, childCount := myId, false, {}, 0;
    }
  }

  predicate HasTwin(lasker: bool, u: Id) {
    Twins(lasker, u, u.Negated())
  }

  /** The smaller of a sector and its twin. */
  function Primary(lasker: bool, u: Id): Id {
    if HasTwin(lasker, u) && u.Negated().Less(u) then u.Negated() else u
  }

  lemma PrimaryFacts(lasker: bool, u: Id)
    ensures HasTwin(lasker, u) <==> HasTwin(lasker, u.Negated())
    ensures HasTwin(lasker, u) ==> u.Less(u.Negated()) || u.Negated().Less(u)
    ensures !(u.Less(u.Negated()) && u.Negated().Less(u))
    ensures Primary(lasker, u) == u || (HasTwin(lasker, u) && Primary(lasker, u) == u.Negated())
    ensures HasTwin(lasker, u) ==> Primary(lasker, u.Negated()) == Primary(lasker, u)
    ensures Weight(Primary(lasker, u)) == Weight(u)
    ensures u.Negated().Negated() == u
  {
    hide Edge;
  }

  // ---------------------------------------------------------------- merging

  /** Which object sector u's entry refers to once the sectors in done have been handled. */
  function Rep(lasker: bool, done: seq<Id>, u: Id): Id {
    if Primary(lasker, u) in done then Primary(lasker, u) else u
  }

  /** Whether the object made for u carries the twine flag by then. */
  predicate Flag(lasker: bool, done: seq<Id>, u: Id) {
    HasTwin(lasker, u) && Primary(lasker, u) == u && u in done
  }

  lemma MergeStep(lasker: bool, list: seq<Id>, i: nat, u: Id)
    requires Ascending(list) && i < |list|
    requires HasTwin(lasker, list[i]) ==> list[i].Negated() in list
    ensures Rep(lasker, list[..i + 1], u)
         == if HasTwin(lasker, list[i]) && u == list[i].Negated() then Rep(lasker, list[..i], list[i])
           else Rep(lasker, list[..i], u)
    ensures Flag(lasker, list[..i + 1], u)
        <==> Flag(lasker, list[..i], u) || (HasTwin(lasker, list[i]) && u == Rep(lasker, list[..i], list[i]))
  {
    var s := list[i];
    hide HasTwin;
    PrimaryFacts(lasker, s);
    PrimaryFacts(lasker, u);
    hide Primary, Ascending;
    assert list[..i + 1] == list[..i] + [s];
    forall x ensures x in list[..i + 1] <==> x in list[..i] || x == s {}
    if HasTwin(lasker, s) && Primary(lasker, s) != s {
      EarlierIn(lasker, list, i, s);
    }
  }

  /** The smaller twin stands before the larger. */
  lemma EarlierIn(lasker: bool, list: seq<Id>, i: nat, s: Id)
    requires Ascending(list) && i < |list| && list[i] == s && HasTwin(lasker, s) && Primary(lasker, s) != s
    requires s.Negated() in list
    ensures Primary(lasker, s) in list[..i]
  {
    var k :| 0 <= k < |list| && list[k] == s.Negated();
    assert k < i;
  }

  lemma MergeEnd(lasker: bool, list: seq<Id>, u: Id)
    requires Ascending(list) && |list| > 0 && u in list
    requires HasTwin(lasker, u) ==> u.Negated() in list
    ensures Rep(lasker, list[..|list| - 1], u) == Primary(lasker, u)
    ensures Flag(lasker, list[..|list| - 1], u) <==> HasTwin(lasker, u) && Primary(lasker, u) == u
  {
    hide HasTwin;
    PrimaryFacts(lasker, u);
    var n := |list|;
    var k :| 0 <= k < n && list[k] == u;
    if HasTwin(lasker, u) {
      var j :| 0 <= j < n && list[j] == u.Negated();
      if Primary(lasker, u) == u {
        assert k < j;
        assert list[..n - 1][k] == u;
      } else {
        assert j < k;
        assert list[..n - 1][j] == u.Negated();
      }
    }
  }

  // ---------------------------------------------------------------- the finished quotient

  /** The units some sector of which links to some sector of q. */
  ghost function ParentSet(lasker: bool, wus: map<Id, Wu>, q: Wu): set<Wu> {
    set v, w | v in wus && w in wus && wus[w] == q && wus[v] != q && Link(lasker, v, w) :: wus[v]
  }

  ghost function Children(objs: set<Wu>, p: Wu): set<Wu>
    reads objs
  {
    set q | q in objs && p in q.parents
  }

  /** Every child_count is the number of units that name this one as a parent. */
  ghost predicate Counted(objs: set<Wu>)
    reads objs
  {
    forall p :: p in objs ==> p.childCount == |Children(objs, p)|
  }

  /** Sectors share a unit when they are the same or twins. */
  ghost predicate Shared(lasker: bool, wus: map<Id, Wu>) {
    forall u, v :: u in wus && v in wus && Primary(lasker, u) == Primary(lasker, v) ==> wus[u] == wus[v]
  }

  /** One object for each sector or pair of twins, under the smaller id, with the twine flag
      set exactly on the pairs. */
  ghost predicate Merged(g: Graph, wus: map<Id, Wu>)
    reads g, wus.Values
  {
    && (forall u :: u in wus <==> u in g.sectorList)
    && (forall u :: u in wus ==> wus[u].id == Primary(g.lasker, u) && (wus[u].isTwine <==> HasTwin(g.lasker, u)))
    && Shared(g.lasker, wus)
  }

  ghost predicate Wired(g: Graph, wus: map<Id, Wu>)
    reads g, wus.Values
  {
    && Merged(g, wus)
    && (forall q :: q in wus.Values ==> q.parents == ParentSet(g.lasker, wus, q))
    && Counted(wus.Values)
  }

  // ---------------------------------------------------------------- add_adj

  /** The units other than q that hold one of the sectors of l. */
  ghost function Named(wus: map<Id, Wu>, l: seq<Id>, q: Wu): set<Wu> {
    set k | 0 <= k < |l| && l[k] in wus && wus[l[k]] != q :: wus[l[k]]
  }

  lemma NamedMore(wus: map<Id, Wu>, l: seq<Id>, k: nat, q: Wu)
    requires k < |l| && l[k] in wus
    ensures Named(wus, l[..k + 1], q) == Named(wus, l[..k], q) + if wus[l[k]] != q then {wus[l[k]]} else {}
  {
    var s := l[..k + 1];
    assert forall j :: 0 <= j < k ==> s[j] == l[..k][j];
    assert s[k] == l[k];
    forall p | p in Named(wus, l[..k], q) ensures p in Named(wus, s, q) {
      var j :| 0 <= j < k && l[..k][j] in wus && wus[l[..k][j]] == p;
      assert s[j] in wus && wus[s[j]] == p;
    }
  }

  method AddAdj(g: Graph, wus: map<Id, Wu>, wu: Wu, id: Id)
    requires wu in wus.Values && forall u :: u in At(g.sectorGraphT, id) ==> u in wus
    requires Counted(wus.Values)
    modifies wus.Values
    ensures Counted(wus.Values)
    ensures forall q :: q in wus.Values ==> q.isTwine == old(q.isTwine)
    ensures forall q :: q in wus.Values && q != wu ==> q.parents == old(q.parents)
    ensures wu.parents == old(wu.parents) + Named(wus, At(g.sectorGraphT, id), wu)
  {
    hide At;
    var e := At(g.sectorGraphT, id);
    for k := 0 to |e|
      invariant Counted(wus.Values)
      invariant forall q :: q in wus.Values ==> q.isTwine == old(q.isTwine)
      invariant forall q :: q in wus.Values && q != wu ==> q.parents == old(q.parents)
      invariant wu.parents == old(wu.parents) + Named(wus, e[..k], wu)
    {
      NamedMore(wus, e, k, wu);
      assert e[k] in e;
      var p := wus[e[k]];
      if p != wu {
        InsertParent(wus.Values, wu, p);
      }
    }
    assert e[..|e|] == e;
  }

  /** wu.parents.insert(p), counting a new child. */
  method InsertParent(objs: set<Wu>, wu: Wu, p: Wu)
    requires wu in objs && p in objs && p != wu && Counted(objs)
    modifies wu`parents, p`childCount
    ensures Counted(objs)
    ensures wu.parents == old(wu.parents) + {p}
  {
    if p !in wu.parents {
      ghost var kids := map q | q in objs :: Children(objs, q);
      p.childCount := p.childCount + 1;
      forall q | q in objs ensures Children(objs, q) == kids[q] {}
      AddParent(objs, wu, p);
    }
  }

  /** The insertion alone: p gains the child wu, and nobody else's children change. */
  method AddParent(objs: set<Wu>, wu: Wu, p: Wu)
    requires wu in objs && p in objs && p != wu && p !in wu.parents
    modifies wu`parents
    ensures wu.parents == old(wu.parents) + {p}
    ensures |Children(objs, p)| == old(|Children(objs, p)|) + 1
    ensures forall q :: q in objs && q != p ==> Children(objs, q) == old(Children(objs, q))
  {
    ghost var before := Children(objs, p);
    wu.parents := wu.parents + {p};
    assert Children(objs, p) == before + {wu};
  }

  // ---------------------------------------------------------------- init_wu_graph

  /** The first loop: a unit for every sector. */
  method Create(list: seq<Id>) returns (wus: map<Id, Wu>)
    requires Ascending(list)
    ensures fresh(wus.Values) && forall u :: u in wus <==> u in list
    ensures forall u :: u in wus ==> wus[u].id == u && !wus[u].isTwine && wus[u].parents == {} && wus[u].childCount == 0
  {
    wus := map[];
    for i := 0 to |list|
      invariant fresh(wus.Values) && forall u :: u in wus <==> u in list[..i]
      invariant forall u ::
                  u in wus ==> wus[u].id == u && !wus[u].isTwine && wus[u].parents == {} && wus[u].childCount == 0
    {
      assert list[..i + 1] == list[..i] + [list[i]];
      var unit := new Wu(list[i]);
      assert forall u :: u in wus ==> wus[u] in wus.Values;
      wus := wus[list[i] := unit];
    }
    assert list[..|list|] == list;
  }

  /** Sector u's entry is the unit made for rep[u]. */
  ghost predicate Entries(list: seq<Id>, objs: map<Id, Wu>, wus: map<Id, Wu>, rep: map<Id, Id>) {
    && (forall u :: u in wus <==> u in list) && (forall u :: u in objs <==> u in list)
    && (forall u :: u in rep <==> u in list)
    && (forall u :: u in list ==> rep[u] in list && wus[u] == objs[rep[u]])
  }

  /** The units made for flags are marked as twines, and nothing else has happened to any. */
  ghost predicate Units(objs: map<Id, Wu>, flags: set<Id>)
    reads objs.Values
  {
    forall u :: u in objs ==>
      objs[u].id == u && (objs[u].isTwine <==> u in flags) && objs[u].parents == {} && objs[u].childCount == 0
  }

  /** The state of the second loop. */
  ghost predicate Shape(list: seq<Id>, objs: map<Id, Wu>, wus: map<Id, Wu>, rep: map<Id, Id>, flags: set<Id>)
    reads objs.Values
  {
    Entries(list, objs, wus, rep) && Units(objs, flags)
  }

  /** What entries and flags are once the sectors of done have been handled. */
  ghost predicate Handled(lasker: bool, list: seq<Id>, done: seq<Id>, rep: map<Id, Id>, flags: set<Id>) {
    && (forall u :: u in rep <==> u in list)
    && (forall u :: u in list ==> rep[u] == Rep(lasker, done, u))
    && (forall u :: u in list ==> (u in flags <==> Flag(lasker, done, u)))
  }

  lemma HandledNext(lasker: bool, list: seq<Id>, i: nat, rep: map<Id, Id>, flags: set<Id>, rep2: map<Id, Id>,
          flags2: set<Id>)
    requires Ascending(list) && i < |list| && list[i] in list
    requires HasTwin(lasker, list[i]) ==> list[i].Negated() in list
    requires Handled(lasker, list, list[..i], rep, flags)
    requires rep2 == if HasTwin(lasker, list[i]) then rep[list[i].Negated() := rep[list[i]]] else rep
    requires flags2 == if HasTwin(lasker, list[i]) then flags + {rep[list[i]]} else flags
    ensures Handled(lasker, list, list[..i + 1], rep2, flags2)
  {
    hide HasTwin, Rep, Flag, Ascending;
    forall u | u in list
      ensures rep2[u] == Rep(lasker, list[..i + 1], u)
      ensures u in flags2 <==> Flag(lasker, list[..i + 1], u)
    {
      MergeStep(lasker, list, i, u);
    }
  }

  lemma HandledFirst(lasker: bool, list: seq<Id>, rep: map<Id, Id>)
    requires forall u :: (u in rep <==> u in list) && (u in list ==> rep[u] == u)
    ensures Handled(lasker, list, [], rep, {})
  {
    hide HasTwin;
  }

  lemma EntriesUnite(list: seq<Id>, objs: map<Id, Wu>, wus: map<Id, Wu>, rep: map<Id, Id>, s1: Id, s2: Id)
    requires Entries(list, objs, wus, rep) && s1 in list && s2 in list
    ensures s1 in wus && s1 in rep && rep[s1] in objs
    ensures wus[s1] == objs[rep[s1]] && Entries(list, objs, wus[s2 := wus[s1]], rep[s2 := rep[s1]])
  {}

  method MarkTwine(objs: map<Id, Wu>, unit: Wu, ghost u: Id, ghost flags: set<Id>)
    requires Units(objs, flags) && u in objs && objs[u] == unit
    modifies unit`isTwine
    ensures Units(objs, flags + {u})
  {
    assert forall v :: v in objs && v != u ==> objs[v] != unit;
    unit.isTwine := true;
  }

  /** The two assignments for a pair of twins. */
  method Unite(list: seq<Id>, objs: map<Id, Wu>, wus: map<Id, Wu>, ghost rep: map<Id, Id>, ghost flags: set<Id>,
          s1: Id, s2: Id)
    returns (wus2: map<Id, Wu>)
    requires Shape(list, objs, wus, rep, flags) && s1 in list && s2 in list
    modifies objs.Values
    ensures Shape(list, objs, wus2, rep[s2 := rep[s1]], flags + {rep[s1]})
  {
    hide Entries, Units;
    EntriesUnite(list, objs, wus, rep, s1, s2);
    assert objs[rep[s1]] in objs.Values;
    MarkTwine(objs, wus[s1], rep[s1], flags);
    wus2 := wus[s2 := wus[s1]];
  }

  /** The second loop: twins come to share one unit. */
  method Merge(g: Graph, objs: map<Id, Wu>) returns (wus: map<Id, Wu>, ghost rep: map<Id, Id>, ghost flags: set<Id>)
    requires g.Built() && g.sectorList != [] && Shape(g.sectorList, objs, objs, map u | u in objs :: u, {})
    modifies objs.Values
    ensures Shape(g.sectorList, objs, wus, rep, flags)
    ensures Handled(g.lasker, g.sectorList, g.sectorList[..|g.sectorList| - 1], rep, flags)
  {
    hide HasTwin, Handled, Ascending, NoRepeats, Reachable, At, Shape, Graph.Built;
    var list := g.sectorList;
    wus, rep, flags := objs, map u | u in objs :: u, {};
    FirstShape(g.lasker, list, objs, rep);
    var n := |list|;
    for i := 0 to n - 1
      invariant Shape(list, objs, wus, rep, flags) && Handled(g.lasker, list, list[..i], rep, flags)
    {
      ghost var rep0, flags0 := rep, flags;
      var s1 := list[i];
      Listing(g, s1, objs, wus, rep, flags);
      var e := At(g.sectorGraph, s1);
      ghost var met := false;
      for k := 0 to |e|
        invariant met == (HasTwin(g.lasker, s1) && s1.Negated() in e[..k])
        invariant rep == if met then rep0[s1.Negated() := rep0[s1]] else rep0
        invariant flags == if met then flags0 + {rep0[s1]} else flags0
        invariant Shape(list, objs, wus, rep, flags)
      {
        var s2 := e[k];
        assert s2 in e && e[..k + 1] == e[..k] + [s2];
        if s1 in At(g.sectorGraph, s2) {
          TwinsAre(g, s1, s2);
          wus := Unite(list, objs, wus, rep, flags, s1, s2);
          rep, flags := rep[s2 := rep[s1]], flags + {rep[s1]};
          met := true;
        } else {
          NotTwins(g, s1, s2);
        }
      }
      assert e[..|e|] == e;
      if HasTwin(g.lasker, s1) { TwinMet(g, s1); }
      HandledNext(g.lasker, list, i, rep0, flags0, rep, flags);
    }
  }

  lemma FirstShape(lasker: bool, list: seq<Id>, objs: map<Id, Wu>, rep: map<Id, Id>)
    requires Shape(list, objs, objs, rep, {}) && rep == map u | u in objs :: u
    ensures Handled(lasker, list, list[..0], rep, {})
  {
    hide HasTwin;
    HandledFirst(lasker, list, rep);
  }

  lemma Listing(g: Graph, s1: Id, objs: map<Id, Wu>, wus: map<Id, Wu>, rep: map<Id, Id>, flags: set<Id>)
    requires g.Built() && s1 in g.sectorList && Shape(g.sectorList, objs, wus, rep, flags)
    ensures s1 in rep && Ascending(g.sectorList)
    ensures HasTwin(g.lasker, s1) ==> s1.Negated() in g.sectorList && s1.Negated() != s1
  {
    hide At, Ascending, NoRepeats, Reachable;
    if HasTwin(g.lasker, s1) {
      LinkReachable(g.lasker, g.maxKsz, s1, s1.Negated());
    }
  }

  lemma TwinMet(g: Graph, s1: Id)
    requires g.Built() && s1 in g.sectorList && HasTwin(g.lasker, s1)
    ensures s1.Negated() in At(g.sectorGraph, s1)
  {
    hide At, Ascending, NoRepeats, Reachable, Link;
  }

  lemma TwinsAre(g: Graph, s1: Id, s2: Id)
    requires g.Built() && s2 in At(g.sectorGraph, s1) && s1 in At(g.sectorGraph, s2)
    ensures s1 == s2.Negated() && s2 == s1.Negated() && HasTwin(g.lasker, s1)
    ensures s1 in g.sectorList && s2 in g.sectorList
  {
    hide Link, At, Reachable, Ascending, NoRepeats;
    TwinsAreNegations(g.lasker, s1, s2);
  }

  lemma NotTwins(g: Graph, s1: Id, s2: Id)
    requires g.Built() && s2 in At(g.sectorGraph, s1) && s1 !in At(g.sectorGraph, s2)
    ensures HasTwin(g.lasker, s1) ==> s2 != s1.Negated()
  {
    hide Link, At, Reachable, Ascending, NoRepeats;
    if HasTwin(g.lasker, s1) && s2 == s1.Negated() {
      TargetListed(g, s1, s2);
    }
  }

  lemma TargetListed(g: Graph, u: Id, v: Id)
    requires g.Built() && v in At(g.sectorGraph, u)
    ensures Link(g.lasker, u, v) && u in g.sectorList && v in g.sectorList
  {
    hide At, Ascending, NoRepeats, Reachable;
    LinkReachable(g.lasker, g.maxKsz, u, v);
  }

  // ---------------------------------------------------------------- connecting

  /** Which sectors a unit holds: its id and, for a pair, the other one. */
  lemma UnitSectors(g: Graph, wus: map<Id, Wu>, q: Wu, w: Id)
    requires Merged(g, wus) && q in wus.Values
    requires forall u :: u in g.sectorList && HasTwin(g.lasker, u) ==> u.Negated() in g.sectorList
    ensures w in wus && wus[w] == q <==> w in wus && (w == q.id || (q.isTwine && w == q.id.Negated()))
  {
    var key :| key in wus && wus[key] == q;
    PrimaryFacts(g.lasker, key);
    PrimaryFacts(g.lasker, w);
    hide HasTwin, Primary;
  }

  lemma BackLinks(g: Graph, wus: map<Id, Wu>, id: Id)
    requires g.Built() && Merged(g, wus)
    ensures forall u :: u in At(g.sectorGraphT, id) <==> u in wus && Link(g.lasker, u, id)
  {
    hide At, Ascending, NoRepeats, Reachable, Link, HasTwin, Primary;
    forall u ensures u in At(g.sectorGraphT, id) <==> u in wus && Link(g.lasker, u, id) {
      assert id in At(g.sectorGraph, u) <==> u in g.sectorList && Link(g.lasker, u, id);
    }
  }

  lemma TwinListed(g: Graph)
    requires g.Built()
    ensures forall u :: u in g.sectorList && HasTwin(g.lasker, u) ==> u.Negated() in g.sectorList
  {
    hide At, Ascending, NoRepeats, Reachable;
    forall u | u in g.sectorList && HasTwin(g.lasker, u) ensures u.Negated() in g.sectorList {
      LinkReachable(g.lasker, g.maxKsz, u, u.Negated());
    }
  }

  lemma NamedIs(wus: map<Id, Wu>, l: seq<Id>, q: Wu, p: Wu)
    ensures p in Named(wus, l, q) <==> p != q && exists v :: v in l && v in wus && wus[v] == p
  {
    if v :| p != q && v in l && v in wus && wus[v] == p {
      var k :| 0 <= k < |l| && l[k] == v;
      assert wus[l[k]] == p;
    }
  }

  lemma InValues(g: Graph, wus: map<Id, Wu>, q: Wu)
    ensures ParentSet(g.lasker, wus, q) <= wus.Values
    ensures forall l :: Named(wus, l, q) <= wus.Values
  {
    hide Link;
  }

  /** What the two calls of add_adj contribute together. */
  lemma AdjIsParents(g: Graph, wus: map<Id, Wu>, q: Wu)
    requires g.Built() && Merged(g, wus) && q in wus.Values
    ensures ParentSet(g.lasker, wus, q)
         == Named(wus, At(g.sectorGraphT, q.id), q)
            + if q.isTwine then Named(wus, At(g.sectorGraphT, q.id.Negated()), q) else {}
  {
    hide At, Graph.Built, Link, Named, Shared, HasTwin, Primary, Merged, ParentSet;
    BackLinks(g, wus, q.id);
    BackLinks(g, wus, q.id.Negated());
    var both := Named(wus, At(g.sectorGraphT, q.id), q)
                + if q.isTwine then Named(wus, At(g.sectorGraphT, q.id.Negated()), q) else {};
    assert ParentSet(g.lasker, wus, q) <= wus.Values && both <= wus.Values by { InValues(g, wus, q); }
    forall p | p in wus.Values ensures p in ParentSet(g.lasker, wus, q) <==> p in both {
      NamedIs(wus, At(g.sectorGraphT, q.id), q, p);
      NamedIs(wus, At(g.sectorGraphT, q.id.Negated()), q, p);
      InParentSet(g, wus, q, p);
    }
  }

  lemma Sectors(g: Graph, wus: map<Id, Wu>, q: Wu)
    requires g.Built() && Merged(g, wus) && q in wus.Values
    ensures forall w :: w in wus && wus[w] == q ==> w == q.id || (q.isTwine && w == q.id.Negated())
    ensures q.id in wus && wus[q.id] == q && (q.isTwine ==> q.id.Negated() in wus && wus[q.id.Negated()] == q)
  {
    hide Graph.Built, HasTwin, Primary, Shared;
    UnitListed(g, wus, q);
    TwinListed(g);
    forall w | w in wus && wus[w] == q ensures w == q.id || (q.isTwine && w == q.id.Negated()) {
      UnitSectors(g, wus, q, w);
    }
    UnitSectors(g, wus, q, q.id);
    UnitSectors(g, wus, q, q.id.Negated());
  }

  lemma InParentSet(g: Graph, wus: map<Id, Wu>, q: Wu, p: Wu)
    requires g.Built() && Merged(g, wus) && q in wus.Values
    ensures p in ParentSet(g.lasker, wus, q)
       <==> p != q && exists v :: v in wus && wus[v] == p
                        && (Link(g.lasker, v, q.id) || (q.isTwine && Link(g.lasker, v, q.id.Negated())))
  {
    hide Merged, Graph.Built, Link, HasTwin, Primary, Twins, Shared;
    Sectors(g, wus, q);
    if v :| p != q && v in wus && wus[v] == p
            && (Link(g.lasker, v, q.id) || (q.isTwine && Link(g.lasker, v, q.id.Negated()))) {
      var w := if Link(g.lasker, v, q.id) then q.id else q.id.Negated();
      assert wus[w] == q && wus[v] != q && Link(g.lasker, v, w);
    }
  }

  lemma UnitListed(g: Graph, wus: map<Id, Wu>, q: Wu)
    requires g.Built() && Merged(g, wus) && q in wus.Values
    ensures q.id in wus && (q.isTwine ==> q.id.Negated() in wus)
  {
    TwinListed(g);
    var key :| key in wus && wus[key] == q;
    PrimaryFacts(g.lasker, key);
    hide HasTwin, Primary, Graph.Built;
  }

  /** The third loop, over the units in any order; a pair is met twice. */
  method Connect(g: Graph, wus: map<Id, Wu>)
    requires g.Built() && Merged(g, wus)
    requires forall q :: q in wus.Values ==> q.parents == {} && q.childCount == 0
    modifies wus.Values
    ensures Wired(g, wus)
  {
    hide Graph.Built, Merged, ParentSet, Named, At;
    forall p | p in wus.Values ensures p.childCount == |Children(wus.Values, p)| {
      assert Children(wus.Values, p) == {};
    }
    hide Counted;
    var rest := wus.Keys;
    while rest != {}
      invariant rest <= wus.Keys && g.Built() && Merged(g, wus) && Counted(wus.Values)
      invariant forall q :: q in wus.Values ==> q.parents <= ParentSet(g.lasker, wus, q)
      invariant forall u :: u in wus && u !in rest ==> ParentSet(g.lasker, wus, wus[u]) <= wus[u].parents
      decreases |rest|
    {
      var key :| key in rest;
      rest := rest - {key};
      ConnectOne(g, wus, wus[key]);
    }
    assert forall q :: q in wus.Values ==> exists u :: u in wus && wus[u] == q;
  }

  method ConnectOne(g: Graph, wus: map<Id, Wu>, unit: Wu)
    requires g.Built() && Merged(g, wus) && Counted(wus.Values) && unit in wus.Values
    modifies wus.Values
    ensures g.Built() && Merged(g, wus) && Counted(wus.Values)
    ensures unit.parents == old(unit.parents) + ParentSet(g.lasker, wus, unit)
    ensures forall q :: q in wus.Values && q != unit ==> q.parents == old(q.parents)
  {
    hide ParentSet, Named, At, Graph.Built, Counted, HasTwin, Primary;
    AdjIsParents(g, wus, unit);
    BackLinks(g, wus, unit.id);
    BackLinks(g, wus, unit.id.Negated());
    AddAdj(g, wus, unit, unit.id);
    if unit.isTwine {
      AddAdj(g, wus, unit, unit.id.Negated());
    }
  }

  /** init_wu_graph. */
  method InitWuGraph(g: Graph) returns (wus: map<Id, Wu>)
    requires g.Built()
    ensures fresh(wus.Values) && Wired(g, wus)
  {
    hide Graph.Built, Shape, Handled, Counted;
    BuiltNonempty(g);
    var objs := Create(g.sectorList);
    FirstUnits(g.sectorList, objs);
    ghost var rep: map<Id, Id>, flags: set<Id>;
    wus, rep, flags := Merge(g, objs);
    MergedAtEnd(g, objs, wus, rep, flags);
    Connect(g, wus);
  }

  lemma BuiltNonempty(g: Graph)
    requires g.Built()
    ensures g.sectorList != [] && Ascending(g.sectorList)
  {
    StartReachable(g.lasker, g.maxKsz);
  }

  lemma FirstUnits(list: seq<Id>, objs: map<Id, Wu>)
    requires forall u :: u in objs <==> u in list
    requires forall u ::
               u in objs ==> objs[u].id == u && !objs[u].isTwine && objs[u].parents == {} && objs[u].childCount == 0
    ensures Shape(list, objs, objs, map u | u in objs :: u, {})
  {}

  lemma MergedAtEnd(g: Graph, objs: map<Id, Wu>, wus: map<Id, Wu>, rep: map<Id, Id>, flags: set<Id>)
    requires g.Built() && g.sectorList != [] && Ascending(g.sectorList)
    requires Shape(g.sectorList, objs, wus, rep, flags)
    requires Handled(g.lasker, g.sectorList, g.sectorList[..|g.sectorList| - 1], rep, flags)
    ensures Merged(g, wus) && wus.Values <= objs.Values
    ensures forall q :: q in wus.Values ==> q.parents == {} && q.childCount == 0
  {
    hide Graph.Built, Shape, Final, Handled, HasTwin;
    TwinListed(g);
    forall u | u in g.sectorList ensures Final(g.lasker, rep, flags, u) {
      AtEnd(g.lasker, g.sectorList, rep, flags, u);
    }
    UnitsAtEnd(g, objs, wus, rep, flags);
  }

  /** What becomes of sector u. */
  ghost predicate Final(lasker: bool, rep: map<Id, Id>, flags: set<Id>, u: Id) {
    u in rep && rep[u] == Primary(lasker, u) && (u in flags <==> HasTwin(lasker, u) && Primary(lasker, u) == u)
  }

  lemma AtEnd(lasker: bool, list: seq<Id>, rep: map<Id, Id>, flags: set<Id>, u: Id)
    requires Ascending(list) && list != [] && u in list && Handled(lasker, list, list[..|list| - 1], rep, flags)
    requires HasTwin(lasker, u) ==> u.Negated() in list
    ensures Final(lasker, rep, flags, u)
  {
    MergeEnd(lasker, list, u);
    hide HasTwin, Primary, Rep, Flag;
  }

  /** What the entry of sector u has become. */
  ghost predicate Settled(lasker: bool, wus: map<Id, Wu>, u: Id)
    requires u in wus
    reads wus.Values
  {
    && wus[u].id == Primary(lasker, u) && (wus[u].isTwine <==> HasTwin(lasker, u))
    && wus[u].parents == {} && wus[u].childCount == 0
  }

  lemma UnitsAtEnd(g: Graph, objs: map<Id, Wu>, wus: map<Id, Wu>, rep: map<Id, Id>, flags: set<Id>)
    requires Shape(g.sectorList, objs, wus, rep, flags)
    requires forall u :: u in g.sectorList ==> Final(g.lasker, rep, flags, u)
    ensures Merged(g, wus) && wus.Values <= objs.Values
    ensures forall q :: q in wus.Values ==> q.parents == {} && q.childCount == 0
  {
    hide *;
    ShapeKeys(g.sectorList, objs, wus, rep, flags);
    AllSettled(g, objs, wus, rep, flags);
    SharedEntries(g, objs, wus, rep, flags);
    SettledIsMerged(g, wus);
  }

  lemma AllSettled(g: Graph, objs: map<Id, Wu>, wus: map<Id, Wu>, rep: map<Id, Id>, flags: set<Id>)
    requires Shape(g.sectorList, objs, wus, rep, flags)
    requires forall u :: u in g.sectorList ==> Final(g.lasker, rep, flags, u)
    ensures forall u :: u in wus ==> wus[u] in objs.Values && Settled(g.lasker, wus, u)
  {
    hide *;
    ShapeKeys(g.sectorList, objs, wus, rep, flags);
    forall u | u in wus ensures wus[u] in objs.Values && Settled(g.lasker, wus, u) {
      UnitAtEnd(g, objs, wus, rep, flags, u);
    }
  }

  lemma SharedEntries(g: Graph, objs: map<Id, Wu>, wus: map<Id, Wu>, rep: map<Id, Id>, flags: set<Id>)
    requires Shape(g.sectorList, objs, wus, rep, flags)
    requires forall u :: u in g.sectorList ==> Final(g.lasker, rep, flags, u)
    ensures Shared(g.lasker, wus)
  {
    hide Shape, Final, Primary, HasTwin, Entries, Units;
    ShapeKeys(g.sectorList, objs, wus, rep, flags);
    forall u, v | u in wus && v in wus && Primary(g.lasker, u) == Primary(g.lasker, v) ensures wus[u] == wus[v] {
      SameEntry(g, objs, wus, rep, flags, u, v);
    }
  }

  lemma SettledIsMerged(g: Graph, wus: map<Id, Wu>)
    requires forall u :: u in wus <==> u in g.sectorList
    requires forall u :: u in wus ==> Settled(g.lasker, wus, u)
    requires Shared(g.lasker, wus)
    ensures Merged(g, wus)
    ensures forall q :: q in wus.Values ==> q.parents == {} && q.childCount == 0
  {
    hide HasTwin, Primary, Shared;
    forall u | u in wus
      ensures wus[u].id == Primary(g.lasker, u) && (wus[u].isTwine <==> HasTwin(g.lasker, u))
      ensures wus[u].parents == {} && wus[u].childCount == 0
    {
      assert Settled(g.lasker, wus, u);
    }
    hide Settled;
  }

  lemma ShapeKeys(list: seq<Id>, objs: map<Id, Wu>, wus: map<Id, Wu>, rep: map<Id, Id>, flags: set<Id>)
    requires Shape(list, objs, wus, rep, flags)
    ensures forall u :: u in wus <==> u in list
  {
    hide Units;
  }

  lemma SameEntry(g: Graph, objs: map<Id, Wu>, wus: map<Id, Wu>, rep: map<Id, Id>, flags: set<Id>, u: Id, v: Id)
    requires Shape(g.sectorList, objs, wus, rep, flags) && u in g.sectorList && v in g.sectorList && u in wus
             && v in wus
    requires Final(g.lasker, rep, flags, u) && Final(g.lasker, rep, flags, v)
    requires Primary(g.lasker, u) == Primary(g.lasker, v)
    ensures wus[u] == wus[v]
  {
    hide HasTwin, Primary, Units;
  }

  lemma UnitAtEnd(g: Graph, objs: map<Id, Wu>, wus: map<Id, Wu>, rep: map<Id, Id>, flags: set<Id>, u: Id)
    requires Shape(g.sectorList, objs, wus, rep, flags) && u in g.sectorList && u in wus
    requires forall x :: x in g.sectorList ==> Final(g.lasker, rep, flags, x)
    ensures wus[u] in objs.Values && Settled(g.lasker, wus, u)
  {
    EntryOf(g.sectorList, objs, wus, rep, flags, u);
    PrimaryFacts(g.lasker, u);
    hide HasTwin, Primary, Shape;
    assert Final(g.lasker, rep, flags, u) && Final(g.lasker, rep, flags, rep[u]);
  }

  lemma EntryOf(list: seq<Id>, objs: map<Id, Wu>, wus: map<Id, Wu>, rep: map<Id, Id>, flags: set<Id>, u: Id)
    requires Shape(list, objs, wus, rep, flags) && u in list
    ensures u in wus && u in rep && rep[u] in list && wus[u] in objs.Values
    ensures wus[u].id == rep[u] && (wus[u].isTwine <==> rep[u] in flags) && wus[u].parents == {}
            && wus[u].childCount == 0
  {}

  // ---------------------------------------------------------------- no cycles among units

  /** A parent is strictly heavier than its child, so the units can be solved children first. */
  lemma ParentsAreHeavier(g: Graph, wus: map<Id, Wu>, p: Wu, q: Wu)
    requires g.Built() && g.maxKsz >= 3 && Wired(g, wus) && q in wus.Values && p in q.parents
    ensures p in wus.Values && Weight(p.id) > Weight(q.id)
  {
    hide Graph.Built, Counted;
    var v, w :| v in wus && w in wus && wus[w] == q && wus[v] == p && p != q && Link(g.lasker, v, w);
    PrimaryFacts(g.lasker, v);
    PrimaryFacts(g.lasker, w);
    hide Primary, HasTwin;
    if Twins(g.lasker, v, w) { TwinsShare(g, wus, v, w); }
    ListedSound(g, v);
    LinkFalls(g.lasker, g.maxKsz, v, w);
  }

  lemma TwinsShare(g: Graph, wus: map<Id, Wu>, v: Id, w: Id)
    requires Merged(g, wus) && v in wus && w in wus && Twins(g.lasker, v, w)
    ensures wus[v] == wus[w]
  {
    TwinsAreNegations(g.lasker, v, w);
    PrimaryFacts(g.lasker, v);
    hide Primary, Link;
  }

  lemma ListedSound(g: Graph, v: Id)
    requires g.Built() && g.maxKsz >= 3 && v in g.sectorList
    ensures Sound(g.lasker, g.maxKsz, v)
  {
    ReachableIsSound(g.lasker, g.maxKsz, v);
  }

  /** The twine flag of a unit is the closed form Id::is_twine of any of its sectors. */
  lemma FlagIsClosedForm(g: Graph, wus: map<Id, Wu>, u: Id)
    requires g.Built() && g.maxKsz >= 3 && Merged(g, wus) && u in wus
    ensures wus[u].isTwine <==> u.IsTwine(g.lasker)
  {
    ListedSound(g, u);
    TwineIff(g.lasker, g.maxKsz, u);
  }
}
