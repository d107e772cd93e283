/** The graph of sectors: which sectors one turn leads to, and its breadth-first closure. */
module SectorGraph {
  import opened Ids

  // ---------------------------------------------------------------- the edges

  /** What a turn does to the counts, before the sides change places: a stone is placed or (once
      the hand is empty, or with a stone on the board under Lasker rules) moved, and a stone of the
      opponent may be taken. */
  predicate Raw(lasker: bool, u: Id, w: Id) {
    || (u.WF != 0 && (w == Id(u.W + 1, u.B, u.WF - 1, u.BF) || w == Id(u.W + 1, u.B - 1, u.WF - 1, u.BF)))
    || ((if lasker then u.W != 0 else u.WF == 0) && (w == u || w == Id(u.W, u.B - 1, u.WF, u.BF)))
  }

  /** The opponent can still play on. */
  predicate Playable(w: Id) { w.B + w.BF >= 3 && w.B >= 0 }

  /** graph_func without elim_loops. */
  predicate Edge(lasker: bool, u: Id, v: Id) {
    Raw(lasker, u, v.Negated()) && Playable(v.Negated())
  }

  /** An edge to another sector. */
  predicate Link(lasker: bool, u: Id, v: Id) {
    Edge(lasker, u, v) && v != u
  }

  method Kept(v: seq<Id>) returns (r: seq<Id>)
    ensures forall w :: w in r <==> w in v && Playable(w)
  {
    r := [];
    for i := 0 to |v|
      invariant forall w :: w in r <==> w in v[..i] && Playable(w)
    {
      if v[i].B + v[i].BF >= 3 && v[i].B >= 0 {
        r := r + [v[i]];
      }
    }
    assert v[..|v|] == v;
  }

  method StdMoraGraphFunc(u: Id) returns (r: seq<Id>)
    ensures forall w :: w in r <==> Raw(false, u, w) && Playable(w)
  {
    var v := [u, u];
    if u.WF != 0 {
      v := v[0 := v[0].(WF := v[0].WF - 1)];
      v := v[0 := v[0].(W := v[0].W + 1)];
      v := v[1 := v[1].(WF := v[1].WF - 1)];
      v := v[1 := v[1].(W := v[1].W + 1)];
      v := v[1 := v[1].(B := v[1].B - 1)];
    } else {
      v := v[1 := v[1].(B := v[1].B - 1)];
    }
    r := Kept(v);
    assert forall w :: w in v <==> w == v[0] || w == v[1];
  }

  method LaskGraphFunc(u: Id) returns (r: seq<Id>)
    ensures forall w :: w in r <==> Raw(true, u, w) && Playable(w)
  {
    var v: seq<Id> := [];
    if u.WF != 0 {
      var a := u.(WF := u.WF - 1, W := u.W + 1);
      var b := u.(WF := u.WF - 1, W := u.W + 1, B := u.B - 1);
      v := v + [a] + [b];
    }
    if u.W != 0 {
      var a := u;
      var b := u.(B := u.B - 1);
      v := v + [a] + [b];
    }
    r := Kept(v);
    assert forall w :: w in v <==> Raw(true, u, w);
  }

  /** graph_func: the neighbours in ascending order, each once. */
  method GraphFunc(lasker: bool, u: Id, elimLoops: bool) returns (l: seq<Id>)
    ensures Ascending(l)
    ensures forall v :: v in l <==> Edge(lasker, u, v) && (elimLoops ==> v != u)
  {
    hide Raw, Playable;
    var r0: seq<Id>;
    if !lasker {
      r0 := StdMoraGraphFunc(u);
    } else {
      r0 := LaskGraphFunc(u);
    }
    ghost var raw := r0;
    for i := 0 to |r0|
      invariant |r0| == |raw|
      invariant forall k :: 0 <= k < i ==> r0[k] == raw[k].Negated()
      invariant forall k :: i <= k < |r0| ==> r0[k] == raw[k]
    {
      r0 := r0[i := r0[i].Negated()];
    }
    NegatedMembers(raw, r0);
    var sr := set x | x in r0;
    if elimLoops {
      sr := sr - {u};
    }
    l := Listed(sr);
  }

  lemma NegatedMembers(raw: seq<Id>, r0: seq<Id>)
    requires |r0| == |raw| && forall k :: 0 <= k < |raw| ==> r0[k] == raw[k].Negated()
    ensures forall v :: v in r0 <==> v.Negated() in raw
  {
    forall v ensures v in r0 <==> v.Negated() in raw {
      if v.Negated() in raw {
        var k :| 0 <= k < |raw| && raw[k] == v.Negated();
        assert r0[k] == v;
      }
    }
  }

  // ---------------------------------------------------------------- reachability

  function Start(maxKsz: int): Id { Id(0, 0, maxKsz, maxKsz) }

  ghost predicate Path(lasker: bool, p: seq<Id>) {
    |p| > 0 && forall i :: 0 <= i < |p| - 1 ==> Link(lasker, p[i], p[i + 1])
  }

  ghost predicate Reachable(lasker: bool, maxKsz: int, v: Id) {
    exists p: seq<Id> :: Path(lasker, p) && p[0] == Start(maxKsz) && p[|p| - 1] == v
  }

  lemma StartReachable(lasker: bool, maxKsz: int)
    ensures Reachable(lasker, maxKsz, Start(maxKsz))
  {
    assert Path(lasker, [Start(maxKsz)]);
  }

  lemma LinkReachable(lasker: bool, maxKsz: int, u: Id, v: Id)
    requires Reachable(lasker, maxKsz, u) && Edge(lasker, u, v)
    ensures Reachable(lasker, maxKsz, v)
  {
    hide Edge;
    if v != u {
      var p: seq<Id> :| Path(lasker, p) && p[0] == Start(maxKsz) && p[|p| - 1] == u;
      assert Path(lasker, p + [v]);
    }
  }

  /** A set with the start that no edge leaves holds everything reachable. */
  lemma {:induction false} ClosedHolds(lasker: bool, volt: set<Id>, p: seq<Id>)
    requires Path(lasker, p) && p[0] in volt
    requires forall u, v :: u in volt && Link(lasker, u, v) ==> v in volt
    ensures p[|p| - 1] in volt
    decreases |p|
  {
    hide Link;
    if |p| > 1 {
      assert Link(lasker, p[0], p[1]);
      ClosedHolds(lasker, volt, p[1..]);
    }
  }

  /** What holds in every reachable sector, for games with at least three stones a side. */
  ghost predicate Sound(lasker: bool, maxKsz: int, u: Id) {
    && u.W >= 0 && u.B >= 0 && u.WF >= 0 && u.BF >= 0
    && 3 <= u.W + u.WF <= maxKsz && 3 <= u.B + u.BF <= maxKsz
    && if lasker then u.W != 0 ==> u.B != 0 else u.BF <= u.WF <= u.BF + 1
  }

  lemma SoundStep(lasker: bool, maxKsz: int, u: Id, v: Id)
    requires Sound(lasker, maxKsz, u) && Edge(lasker, u, v)
    ensures Sound(lasker, maxKsz, v)
  {}

  lemma {:induction false} SoundAlong(lasker: bool, maxKsz: int, p: seq<Id>)
    requires maxKsz >= 3 && Path(lasker, p) && Sound(lasker, maxKsz, p[0])
    ensures Sound(lasker, maxKsz, p[|p| - 1])
    decreases |p|
  {
    hide Sound, Edge;
    if |p| > 1 {
      assert Link(lasker, p[0], p[1]);
      SoundStep(lasker, maxKsz, p[0], p[1]);
      SoundAlong(lasker, maxKsz, p[1..]);
    }
  }

  lemma StartSound(lasker: bool, maxKsz: int)
    requires maxKsz >= 3
    ensures Sound(lasker, maxKsz, Start(maxKsz))
  {}

  lemma ReachableIsSound(lasker: bool, maxKsz: int, u: Id)
    requires maxKsz >= 3 && Reachable(lasker, maxKsz, u)
    ensures Sound(lasker, maxKsz, u)
  {
    hide Sound, Edge;
    assert Sound(lasker, maxKsz, Start(maxKsz)) by { StartSound(lasker, maxKsz); }
    var p: seq<Id> :| Path(lasker, p) && p[0] == Start(maxKsz) && p[|p| - 1] == u;
    SoundAlong(lasker, maxKsz, p);
  }

  // ---------------------------------------------------------------- cycles

  /** Stones on the board weigh one, stones in hand two: no turn adds weight. */
  function Weight(u: Id): int { 2 * (u.WF + u.BF) + u.W + u.B }

  lemma WeightFalls(lasker: bool, u: Id, v: Id)
    requires Edge(lasker, u, v)
    ensures Weight(v) <= Weight(u)
    ensures Weight(v) == Weight(u) ==> v == u.Negated()
  {}

  lemma {:induction false} WeightAlong(lasker: bool, p: seq<Id>)
    requires Path(lasker, p)
    ensures Weight(p[|p| - 1]) <= Weight(p[0])
    ensures Weight(p[|p| - 1]) == Weight(p[0]) ==> forall i :: 0 <= i < |p| ==> p[i] == p[0] || p[i] == p[0].Negated()
    decreases |p|
  {
    hide Edge, Weight;
    if |p| > 1 {
      assert Link(lasker, p[0], p[1]);
      WeightFalls(lasker, p[0], p[1]);
      WeightAlong(lasker, p[1..]);
      forall i | 0 <= i < |p| && Weight(p[|p| - 1]) == Weight(p[0])
        ensures p[i] == p[0] || p[i] == p[0].Negated()
      {
        if i > 0 { assert p[1..][i - 1] == p[i]; }
      }
    }
  }

  /** Every cycle runs between a sector and its negation. */
  lemma CyclesAreTwins(lasker: bool, p: seq<Id>, i: nat)
    requires Path(lasker, p) && p[|p| - 1] == p[0] && i < |p|
    ensures p[i] == p[0] || p[i] == p[0].Negated()
  {
    WeightAlong(lasker, p);
  }

  /** Linked both ways: what init_wu_graph merges. */
  predicate Twins(lasker: bool, u: Id, v: Id) {
    Link(lasker, u, v) && Link(lasker, v, u)
  }

  /** Its assertion holds on every graph, reachable or not. */
  lemma TwinsAreNegations(lasker: bool, u: Id, v: Id)
    requires Twins(lasker, u, v)
    ensures v == u.Negated()
  {
    WeightFalls(lasker, u, v);
    WeightFalls(lasker, v, u);
  }

  /** On reachable sectors the closed form says exactly which have a twin. */
  lemma TwineIff(lasker: bool, maxKsz: int, u: Id)
    requires Sound(lasker, maxKsz, u)
    ensures u.IsTwine(lasker) <==> Twins(lasker, u, u.Negated())
  {}

  /** A link between sectors that are not twins loses weight. */
  lemma LinkFalls(lasker: bool, maxKsz: int, u: Id, v: Id)
    requires Sound(lasker, maxKsz, u) && Link(lasker, u, v) && !Twins(lasker, u, v)
    ensures Weight(v) < Weight(u)
  {}

  // ---------------------------------------------------------------- the search

  function At(m: map<Id, seq<Id>>, u: Id): seq<Id> {
    if u in m then m[u] else []
  }

  /** Every id with counts up to maxKsz. */
  ghost function Universe(maxKsz: int): (s: set<Id>)
    ensures forall u: Id ::
              u in s <==> 0 <= u.W <= maxKsz && 0 <= u.B <= maxKsz && 0 <= u.WF <= maxKsz && 0 <= u.BF <= maxKsz
  {
    set w: int, b: int, wf: int, bf: int
      | 0 <= w <= maxKsz && 0 <= b <= maxKsz && 0 <= wf <= maxKsz && 0 <= bf <= maxKsz
      :: Id(w, b, wf, bf)
  }

  ghost predicate NoRepeats(l: seq<Id>) {
    forall i, j :: 0 <= i < j < |l| ==> l[i] != l[j]
  }

  /** The queue and the visited set, after the sectors of done have been expanded. */
  ghost predicate Searching(lasker: bool, maxKsz: int, volt: set<Id>, q: seq<Id>, done: set<Id>) {
    && Start(maxKsz) in volt && done <= volt && NoRepeats(q)
    && (forall u :: u in volt <==> u in done || u in q)
    && (forall u :: u in q ==> u !in done)
    && (forall u :: u in volt ==> Reachable(lasker, maxKsz, u))
    && (forall u, v :: u in done && Link(lasker, u, v) ==> v in volt)
  }

  ghost predicate Forward(lasker: bool, g: map<Id, seq<Id>>, done: set<Id>) {
    && (forall u, v :: v in At(g, u) <==> u in done && Link(lasker, u, v))
    && (forall u :: Ascending(At(g, u)))
  }

  ghost predicate Backward(lasker: bool, t: map<Id, seq<Id>>, done: set<Id>) {
    && (forall u, v :: u in At(t, v) <==> u in done && Link(lasker, u, v))
    && (forall v :: NoRepeats(At(t, v)))
  }

  lemma FrontOnce(u: Id, q: seq<Id>)
    requires NoRepeats([u] + q)
    ensures u !in q && NoRepeats(q)
  {
    forall k | 0 <= k < |q| ensures q[k] != u { assert ([u] + q)[k + 1] == q[k] && ([u] + q)[0] == u; }
    forall i, j | 0 <= i < j < |q| ensures q[i] != q[j] {
      assert ([u] + q)[i + 1] == q[i] && ([u] + q)[j + 1] == q[j];
    }
  }

  lemma AtUpdate(m: map<Id, seq<Id>>, u: Id, l: seq<Id>)
    ensures forall x :: At(m[u := l], x) == if x == u then l else At(m, x)
  {}

  lemma FirstIn(l: seq<Id>)
    ensures l == [] || l[0] in l
  {}

  lemma NothingYet(lasker: bool, g: map<Id, seq<Id>>, done: set<Id>, u: Id)
    requires Forward(lasker, g, done) && u !in done
    ensures At(g, u) == []
  {
    hide At, Link;
    FirstIn(At(g, u));
  }

  lemma NothingAtAll(lasker: bool)
    ensures Forward(lasker, map[], {}) && Backward(lasker, map[], {})
  {}

  /** The list of u's predecessors found so far, once its neighbours vs have been entered. */
  function Entered(t0: map<Id, seq<Id>>, u: Id, vs: seq<Id>, x: Id): seq<Id> {
    if x in vs then At(t0, x) + [u] else At(t0, x)
  }

  lemma NoneEntered(t: map<Id, seq<Id>>, u: Id)
    ensures forall x :: Entered(t, u, [], x) == At(t, x)
  {}

  lemma EnterOne(t0: map<Id, seq<Id>>, t: map<Id, seq<Id>>, u: Id, vs: seq<Id>, it: Id)
    requires it !in vs && forall x :: At(t, x) == Entered(t0, u, vs, x)
    ensures forall x :: At(t[it := At(t, it) + [u]], x) == Entered(t0, u, vs + [it], x)
  {
    var t2 := t[it := At(t, it) + [u]];
    AtUpdate(t, it, At(t, it) + [u]);
    hide At;
    forall x ensures At(t2, x) == Entered(t0, u, vs + [it], x) {
      assert x in vs + [it] <==> x in vs || x == it;
      assert At(t, x) == Entered(t0, u, vs, x);
    }
  }

  /** Expanding the first sector of the queue. */
  lemma Expanded(lasker: bool, maxKsz: int, volt: set<Id>, q: seq<Id>, done: set<Id>, u: Id, v: seq<Id>,
                 volt2: set<Id>, q2: seq<Id>)
    requires Searching(lasker, maxKsz, volt, [u] + q, done)
    requires forall x :: x in v <==> Link(lasker, u, x)
    requires forall x :: x in volt2 <==> x in volt || x in v
    requires NoRepeats(q2) && forall x :: x in q2 <==> x in q || (x in v && x !in volt)
    ensures Searching(lasker, maxKsz, volt2, q2, done + {u})
    ensures u !in done
  {
    hide Reachable;
    assert u in [u] + q;
    assert forall x :: x in [u] + q <==> x == u || x in q;
    FrontOnce(u, q);
    forall x | x in volt2 ensures Reachable(lasker, maxKsz, x) {
      if x !in volt { LinkReachable(lasker, maxKsz, u, x); }
    }
  }

  lemma SearchStarts(lasker: bool, maxKsz: int)
    ensures Searching(lasker, maxKsz, {Start(maxKsz)}, [Start(maxKsz)], {})
  {
    StartReachable(lasker, maxKsz);
  }

  lemma SearchNext(lasker: bool, maxKsz: int, volt: set<Id>, q: seq<Id>, done: set<Id>)
    requires maxKsz >= 3 && Searching(lasker, maxKsz, volt, q, done) && q != []
    ensures q == [q[0]] + q[1..] && q[0] !in done && q[0] in Universe(maxKsz) && NoRepeats(q[1..])
    ensures forall x :: x in q[1..] ==> x in volt
  {
    hide Reachable;
    assert q[0] in q;
    InUniverse(lasker, maxKsz, q[0]);
  }

  class Graph {
    const lasker: bool
    const maxKsz: int
    var sectorGraph: map<Id, seq<Id>>
    var sectorGraphT: map<Id, seq<Id>>
    var sectorList: seq<Id>

    constructor (lasker: bool, maxKsz: int)
      ensures this.lasker == lasker && this.maxKsz == maxKsz
      ensures sectorGraph == map[] && sectorGraphT == map[] && sectorList == []
    {
      this.lasker, this.maxKsz := lasker, maxKsz;
      sectorGraph, sectorGraphT, sectorList := map[], map[], [];
    }

    /** The reachable sectors in order, their links, and the same links backwards. */
    ghost predicate Built()
      reads this
    {
      && Ascending(sectorList)
      && (forall u :: u in sectorList <==> Reachable(lasker, maxKsz, u))
      && (forall u, v :: v in At(sectorGraph, u) <==> u in sectorList && Link(lasker, u, v))
      && (forall u, v :: u in At(sectorGraphT, v) <==> v in At(sectorGraph, u))
      && (forall u :: Ascending(At(sectorGraph, u)))
      && (forall v :: NoRepeats(At(sectorGraphT, v)))
    }

    /** The body of the search loop for one sector u with neighbours v. */
    method Expand(u: Id, v: seq<Id>, q: seq<Id>, volt: set<Id>) returns (q2: seq<Id>, volt2: set<Id>)
      requires At(sectorGraph, u) == [] && NoRepeats(q) && NoRepeats(v) && forall x :: x in q ==> x in volt
      modifies this`sectorGraph, this`sectorGraphT
      ensures forall x :: x in volt2 <==> x in volt || x in v
      ensures NoRepeats(q2) && forall x :: x in q2 <==> x in q || (x in v && x !in volt)
      ensures forall x :: At(sectorGraph, x) == if x == u then v else At(old(sectorGraph), x)
      ensures forall x :: At(sectorGraphT, x) == Entered(old(sectorGraphT), u, v, x)
    {
      hide At, Entered;
      NoneEntered(sectorGraphT, u);
      q2, volt2 := q, volt;
      for k := 0 to |v|
        invariant forall x :: x in volt2 <==> x in volt || x in v[..k]
        invariant NoRepeats(q2) && forall x :: x in q2 <==> x in q || (x in v[..k] && x !in volt)
        invariant forall x :: At(sectorGraph, x) == if x == u then v[..k] else At(old(sectorGraph), x)
        invariant forall x :: At(sectorGraphT, x) == Entered(old(sectorGraphT), u, v[..k], x)
      {
        var it := v[k];
        assert it !in v[..k];
        assert v[..k + 1] == v[..k] + [it];
        if it !in volt2 {
          q2 := q2 + [it];
          volt2 := volt2 + {it};
        }
        AtUpdate(sectorGraph, u, At(sectorGraph, u) + [it]);
        EnterOne(old(sectorGraphT), sectorGraphT, u, v[..k], it);
        sectorGraph := sectorGraph[u := At(sectorGraph, u) + [it]];
        sectorGraphT := sectorGraphT[it := At(sectorGraphT, it) + [u]];
      }
      assert v[..|v|] == v;
    }

    /** init_sector_graph, up to the work units. */
    method Search()
      requires maxKsz >= 3 && sectorGraph == map[] && sectorGraphT == map[]
      modifies this
      ensures Built()
    {
      hide Link, Reachable, Ascending, At, Searching, Forward, Backward, NoRepeats, Universe, Entered;
      var q: seq<Id> := [Start(maxKsz)];
      var volt := {Start(maxKsz)};
      ghost var done: set<Id> := {};
      SearchStarts(lasker, maxKsz);
      NothingAtAll(lasker);
      while q != []
        invariant Searching(lasker, maxKsz, volt, q, done)
        invariant Forward(lasker, sectorGraph, done) && Backward(lasker, sectorGraphT, done)
        decreases Universe(maxKsz) - done
      {
        var u := q[0];
        SearchNext(lasker, maxKsz, volt, q, done);
        q := q[1..];
        NothingYet(lasker, sectorGraph, done, u);
        var v := GraphFunc(lasker, u, true);
        LinkIs(lasker, u);
        AscendingNoRepeats(v);
        ghost var volt0, q0 := volt, q;
        ghost var g0, t0 := sectorGraph, sectorGraphT;
        q, volt := Expand(u, v, q, volt);
        Expanded(lasker, maxKsz, volt0, q0, done, u, v, volt, q);
        ForwardKept(lasker, g0, sectorGraph, done, u, v);
        BackwardKept(lasker, t0, sectorGraphT, done, u, v);
        done := done + {u};
      }
      sectorList := Listed(volt);
      VoltIsReachable(lasker, maxKsz, volt, done);
      BuiltFrom(done);
    }

    lemma BuiltFrom(done: set<Id>)
      requires Ascending(sectorList) && forall u :: u in sectorList <==> u in done
      requires forall u :: u in done <==> Reachable(lasker, maxKsz, u)
      requires Forward(lasker, sectorGraph, done) && Backward(lasker, sectorGraphT, done)
      ensures Built()
    {
      hide Reachable, Link, At;
    }
  }

  lemma LinkIs(lasker: bool, u: Id)
    ensures forall v :: Link(lasker, u, v) <==> Edge(lasker, u, v) && v != u
  {}

  lemma InUniverse(lasker: bool, maxKsz: int, u: Id)
    requires maxKsz >= 3 && Reachable(lasker, maxKsz, u)
    ensures u in Universe(maxKsz)
  {
    ReachableIsSound(lasker, maxKsz, u);
  }

  lemma AscendingNoRepeats(l: seq<Id>)
    requires Ascending(l)
    ensures NoRepeats(l)
  {}

  lemma ForwardKept(lasker: bool, g0: map<Id, seq<Id>>, g: map<Id, seq<Id>>, done: set<Id>, u: Id, v: seq<Id>)
    requires Forward(lasker, g0, done) && u !in done && Ascending(v) && forall x :: x in v <==> Link(lasker, u, x)
    requires forall x :: At(g, x) == if x == u then v else At(g0, x)
    ensures Forward(lasker, g, done + {u})
  {
    hide At, Link, Ascending;
  }

  lemma BackwardKept(lasker: bool, t0: map<Id, seq<Id>>, t: map<Id, seq<Id>>, done: set<Id>, u: Id, v: seq<Id>)
    requires Backward(lasker, t0, done) && u !in done && forall x :: x in v <==> Link(lasker, u, x)
    requires forall x :: At(t, x) == Entered(t0, u, v, x)
    ensures Backward(lasker, t, done + {u})
  {
    hide At, Link;
    forall x ensures NoRepeats(At(t, x)) {
      assert u !in At(t0, x);
    }
  }

  /** When the queue is empty the visited set is exactly what can be reached. */
  lemma VoltIsReachable(lasker: bool, maxKsz: int, volt: set<Id>, done: set<Id>)
    requires Searching(lasker, maxKsz, volt, [], done)
    ensures volt == done && forall u :: u in volt <==> Reachable(lasker, maxKsz, u)
  {
    hide Link;
    forall u | Reachable(lasker, maxKsz, u) ensures u in volt {
      var p: seq<Id> :| Path(lasker, p) && p[0] == Start(maxKsz) && p[|p| - 1] == u;
      ClosedHolds(lasker, volt, p);
    }
  }
}
