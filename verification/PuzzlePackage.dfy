/** The pruning script from end to end: conflicts between puzzles, their graph, and the puzzles
    kept. */
module PuzzlePackage {
  import opened Symmetry
  import opened PuzzleSymmetries
  import opened Similarity
  import opened Conflicts
  import opened Pruning

  datatype Puzzle = Puzzle(id: string, position: Fingerprint)

  datatype PackageError = NegativeDistance | NoId(index: nat) | DuplicateId(id: string)

  datatype Result<T> = Ok(value: T) | Err(error: PackageError)

  /** The distance the scripts use. */
  function Apart(p: Fingerprint, q: Fingerprint): int {
    Distance(Scripted(), p, q)
  }

  /** On board positions it is a pseudometric, and its zero classes are the canonical solver keys
      exactly where no two hands share a key field; so they are when hands are below sixteen. */
  lemma ApartIsPseudometric(p: Fingerprint, q: Fingerprint, r: Fingerprint)
    requires p.OnBoard() && q.OnBoard() && r.OnBoard()
    ensures Apart(p, q) >= 0 && Apart(p, q) == Apart(q, p) && Apart(p, r) <= Apart(p, q) + Apart(q, r)
    ensures (Apart(p, q) == 0 <==> SolverKey(Scripted(), p) == SolverKey(Scripted(), q))
       <==> !HandsCollide(Scripted(), p, q)
    ensures HandsFit(p.Solver()) && HandsFit(q.Solver()) ==>
              (Apart(p, q) == 0 <==> SolverKey(Scripted(), p) == SolverKey(Scripted(), q))
  {
    ScriptedIsGroup();
    hide Distance, Group.Valid, SolverKey, HandsCollide, HandsFit;
    DistanceNonnegative(Scripted(), p, q);
    DistanceSymmetric(Scripted(), p, q);
    DistanceTriangle(Scripted(), p, q, r);
    ZeroMeansSameKeyIff(Scripted(), p, q);
    if HandsFit(p.Solver()) && HandsFit(q.Solver()) {
      ZeroIffSameKey(Scripted(), p, q);
    }
  }

  /** The distance is the difference of the hands and the number of points that differ, through the
      permutation of the script that makes that least. */
  lemma ApartIs(p: Fingerprint, q: Fingerprint) returns (op: nat)
    requires p.OnBoard() && q.OnBoard()
    ensures |Scripted().ops| == 16
    ensures op < 16 && Apart(p, q) == DifferenceThrough(Scripted(), op, p, q)
    ensures forall i: nat :: i < 16 ==> Apart(p, q) <= DifferenceThrough(Scripted(), i, p, q)
  {
    hide Distance, DifferenceThrough, Group.Valid, Fingerprint.OnBoard;
    ScriptedIsGroup();
    TwentyFour();
    op := DistanceIs(Scripted(), p, q);
  }

  lemma TwentyFour()
    ensures Scripted().n == 24
  {}

  // ---------------------------------------------------------------- conflicts

  ghost predicate DistinctIds(puzzles: seq<Puzzle>) {
    forall i, j :: 0 <= i < j < |puzzles| ==> puzzles[i].id != puzzles[j].id
  }

  /** What find_position_conflicts refuses, checked in its order. */
  ghost predicate Acceptable(puzzles: seq<Puzzle>, minimum: int) {
    && minimum >= 0 && DistinctIds(puzzles)
    && forall i :: 0 <= i < |puzzles| ==> puzzles[i].id != ""
  }

  predicate OnBoards(puzzles: seq<Puzzle>) {
    forall i :: 0 <= i < |puzzles| ==> puzzles[i].position.OnBoard()
  }

  predicate Clashes(puzzles: seq<Puzzle>, minimum: int, i: int, j: int)
    requires 0 <= i < |puzzles| && 0 <= j < |puzzles|
  {
    Apart(puzzles[i].position, puzzles[j].position) < minimum
  }

  function ConflictOf(puzzles: seq<Puzzle>, i: int, j: int): Conflict
    requires 0 <= i < |puzzles| && 0 <= j < |puzzles|
  {
    Conflict(puzzles[i].id, puzzles[j].id, Apart(puzzles[i].position, puzzles[j].position))
  }

  /** c joins a puzzle before place n to a later one. */
  ghost predicate FoundBefore(puzzles: seq<Puzzle>, minimum: int, n: int, c: Conflict) {
    exists i, j :: 0 <= i < n && i < j < |puzzles| && Clashes(puzzles, minimum, i, j) && c == ConflictOf(puzzles, i, j)
  }

  /** c joins the puzzle at place i to one after it and before place n. */
  ghost predicate FoundAt(puzzles: seq<Puzzle>, minimum: int, i: int, n: int, c: Conflict) {
    exists j :: 0 <= i < j < n && j < |puzzles| && Clashes(puzzles, minimum, i, j) && c == ConflictOf(puzzles, i, j)
  }

  lemma FoundNext(puzzles: seq<Puzzle>, minimum: int, n: int, c: Conflict)
    requires 0 <= n < |puzzles|
    ensures FoundBefore(puzzles, minimum, n + 1, c)
       <==> FoundBefore(puzzles, minimum, n, c) || FoundAt(puzzles, minimum, n, |puzzles|, c)
  {
    hide Clashes;
  }

  method CheckIds(puzzles: seq<Puzzle>) returns (error: Result<()>)
    ensures error.Ok? <==> DistinctIds(puzzles) && forall i :: 0 <= i < |puzzles| ==> puzzles[i].id != ""
    ensures error.Err? ==> match error.error
                           case NegativeDistance => false
                           case NoId(index) => index < |puzzles| && puzzles[index].id == ""
                           case DuplicateId(id) =>
                               exists i, j :: 0 <= i < j < |puzzles| && puzzles[i].id == puzzles[j].id == id
  {
    var ids: set<string> := {};
    for index := 0 to |puzzles|
      invariant forall i :: 0 <= i < index ==> puzzles[i].id != "" && puzzles[i].id in ids
      invariant forall id :: id in ids ==> exists i :: 0 <= i < index && puzzles[i].id == id
      invariant forall i, j :: 0 <= i < j < index ==> puzzles[i].id != puzzles[j].id
    {
      if puzzles[index].id == "" {
        return Err(NoId(index));
      }
      if puzzles[index].id in ids {
        return Err(DuplicateId(puzzles[index].id));
      }
      ids := ids + {puzzles[index].id};
    }
    return Ok(());
  }

  /** A conflict of two puzzles is not found at any other two. */
  lemma FoundOnce(puzzles: seq<Puzzle>, minimum: int, left: int, right: int)
    requires DistinctIds(puzzles) && 0 <= left < right < |puzzles|
    ensures !FoundBefore(puzzles, minimum, left, ConflictOf(puzzles, left, right))
    ensures !FoundAt(puzzles, minimum, left, right, ConflictOf(puzzles, left, right))
  {
    hide Apart;
  }

  /** find_position_conflicts: the conflicts, each once, ordered by distance and then by the ids. */
  method FindPositionConflicts(puzzles: seq<Puzzle>, minimum: int) returns (r: Result<seq<Conflict>>)
    ensures r.Ok? <==> Acceptable(puzzles, minimum)
    ensures r.Ok? ==> Sorted(r.value) && forall c :: c in r.value <==> FoundBefore(puzzles, minimum, |puzzles|, c)
    ensures r.Ok? ==> forall i, j :: 0 <= i < j < |puzzles| ==>
              var d := Apart(puzzles[i].position, puzzles[j].position);
              (Conflict(puzzles[i].id, puzzles[j].id, d) in r.value <==> d < minimum)
  {
    if minimum < 0 {
      return Err(NegativeDistance);
    }
    var checked := CheckIds(puzzles);
    if checked.Err? {
      return Err(checked.error);
    }
    hide Apart, FoundBefore, FoundAt, Different, Sorted, DistinctIds;
    DifferentNone();
    var conflicts: seq<Conflict> := [];
    NoneFound(puzzles, minimum);
    for left := 0 to |puzzles|
      invariant Different(conflicts) && forall c :: c in conflicts <==> FoundBefore(puzzles, minimum, left, c)
    {
      ghost var before := conflicts;
      NoneFoundAt(puzzles, minimum, left, left + 1);
      for right := left + 1 to |puzzles|
        invariant Different(conflicts)
        invariant forall c :: c in conflicts <==> c in before || FoundAt(puzzles, minimum, left, right, c)
      {
        forall c
          ensures FoundAt(puzzles, minimum, left, right + 1, c)
             <==> FoundAt(puzzles, minimum, left, right, c)
                  || (Clashes(puzzles, minimum, left, right) && c == ConflictOf(puzzles, left, right))
        {
          FoundAtNext(puzzles, minimum, left, right, c);
        }
        var distance := Apart(puzzles[left].position, puzzles[right].position);
        if distance < minimum {
          FoundOnce(puzzles, minimum, left, right);
          DifferentAppend(conflicts, Conflict(puzzles[left].id, puzzles[right].id, distance));
          conflicts := conflicts + [Conflict(puzzles[left].id, puzzles[right].id, distance)];
        }
      }
      forall c ensures c in conflicts <==> FoundBefore(puzzles, minimum, left + 1, c) {
        FoundNext(puzzles, minimum, left, c);
      }
    }
    var sorted := SortConflicts(conflicts);
    forall i, j | 0 <= i < j < |puzzles|
      ensures var d := Apart(puzzles[i].position, puzzles[j].position);
              (Conflict(puzzles[i].id, puzzles[j].id, d) in sorted <==> d < minimum)
    {
      FoundWhere(puzzles, minimum, i, j);
      assert ConflictOf(puzzles, i, j) in sorted <==> Clashes(puzzles, minimum, i, j);
    }
    return Ok(sorted);
  }

  /** With different ids, a conflict is found exactly where it is. */
  lemma FoundWhere(puzzles: seq<Puzzle>, minimum: int, i: int, j: int)
    requires DistinctIds(puzzles) && 0 <= i < j < |puzzles|
    ensures FoundBefore(puzzles, minimum, |puzzles|, ConflictOf(puzzles, i, j)) <==> Clashes(puzzles, minimum, i, j)
  {
    hide Apart;
  }

  lemma DifferentNone()
    ensures Different([])
  {}

  lemma FoundAtNext(puzzles: seq<Puzzle>, minimum: int, i: int, n: int, c: Conflict)
    requires 0 <= i < n < |puzzles|
    ensures FoundAt(puzzles, minimum, i, n + 1, c)
       <==> FoundAt(puzzles, minimum, i, n, c) || (Clashes(puzzles, minimum, i, n) && c == ConflictOf(puzzles, i, n))
  {
    hide Apart;
  }

  lemma NoneFoundAt(puzzles: seq<Puzzle>, minimum: int, i: int, n: int)
    requires n <= i + 1
    ensures forall c :: !FoundAt(puzzles, minimum, i, n, c)
  {}

  lemma NoneFound(puzzles: seq<Puzzle>, minimum: int)
    ensures forall c :: !FoundBefore(puzzles, minimum, 0, c)
  {}

  // ---------------------------------------------------------------- the graph

  /** order: each id's place in the package. */
  ghost predicate Numbered(puzzles: seq<Puzzle>, order: map<string, int>) {
    && (forall i :: 0 <= i < |puzzles| ==> puzzles[i].id in order && order[puzzles[i].id] == i)
    && (forall id :: id in order ==> 0 <= order[id] < |puzzles| && puzzles[order[id]].id == id)
  }

  ghost predicate Linked(puzzles: seq<Puzzle>, minimum: int, neighbours: map<string, set<string>>,
          order: map<string, int>)
    requires Numbered(puzzles, order)
  {
    && neighbours.Keys == order.Keys
    && forall m, n :: m in order && n in order ==> (n in neighbours[m] <==>
         m != n && Clashes(puzzles, minimum, order[m], order[n]))
  }

  method NumberPuzzles(puzzles: seq<Puzzle>) returns (order: map<string, int>)
    requires DistinctIds(puzzles)
    ensures Numbered(puzzles, order)
  {
    order := map[];
    for index := 0 to |puzzles|
      invariant forall i :: 0 <= i < index ==> puzzles[i].id in order && order[puzzles[i].id] == i
      invariant forall id :: id in order ==> 0 <= order[id] < index && puzzles[order[id]].id == id
    {
      order := order[puzzles[index].id := index];
    }
  }

  /** The first k conflicts have been entered. */
  ghost predicate Entered(conflicts: seq<Conflict>, k: nat, neighbours: map<string, set<string>>)
    requires k <= |conflicts|
  {
    forall m, n :: m in neighbours ==> (n in neighbours[m] <==>
      exists i :: 0 <= i < k && ((conflicts[i].leftId == m && conflicts[i].rightId == n)
                                 || (conflicts[i].leftId == n && conflicts[i].rightId == m)))
  }

  method LinkPuzzles(order: map<string, int>, conflicts: seq<Conflict>) returns (neighbours: map<string, set<string>>)
    requires forall c :: c in conflicts ==> c.leftId in order && c.rightId in order
    ensures neighbours.Keys == order.Keys && Entered(conflicts, |conflicts|, neighbours)
  {
    neighbours := map id | id in order :: {};
    for k := 0 to |conflicts|
      invariant neighbours.Keys == order.Keys && Entered(conflicts, k, neighbours)
    {
      var c := conflicts[k];
      assert c in conflicts;
      ghost var before := neighbours;
      neighbours := neighbours[c.leftId := neighbours[c.leftId] + {c.rightId}];
      neighbours := neighbours[c.rightId := neighbours[c.rightId] + {c.leftId}];
      EnterConflict(conflicts, k, before, neighbours);
    }
  }

  lemma EnterConflict(conflicts: seq<Conflict>, k: nat, before: map<string, set<string>>,
          after: map<string, set<string>>)
    requires k < |conflicts| && Entered(conflicts, k, before) && after.Keys == before.Keys
    requires forall m, n :: m in before ==> (n in after[m] <==> (n in before[m]
                 || (conflicts[k].leftId == m && conflicts[k].rightId == n)
                 || (conflicts[k].leftId == n && conflicts[k].rightId == m)))
    ensures Entered(conflicts, k + 1, after)
  {}

  lemma GraphIsLinked(puzzles: seq<Puzzle>, minimum: int, order: map<string, int>, conflicts: seq<Conflict>,
                      neighbours: map<string, set<string>>)
    requires Numbered(puzzles, order) && OnBoards(puzzles) && neighbours.Keys == order.Keys
    requires Entered(conflicts, |conflicts|, neighbours)
    requires forall c :: c in conflicts <==> FoundBefore(puzzles, minimum, |puzzles|, c)
    ensures Linked(puzzles, minimum, neighbours, order)
  {
    hide Apart, Fingerprint.OnBoard;
    forall m, n | m in order && n in order
      ensures n in neighbours[m] <==> m != n && Clashes(puzzles, minimum, order[m], order[n])
    {
      var i, j := order[m], order[n];
      ClashesBothWays(puzzles, minimum, i, j);
      if m != n && Clashes(puzzles, minimum, i, j) {
        var c := if i < j then ConflictOf(puzzles, i, j) else ConflictOf(puzzles, j, i);
        assert FoundBefore(puzzles, minimum, |puzzles|, c);
        var k :| 0 <= k < |conflicts| && conflicts[k] == c;
      }
      if n in neighbours[m] {
        var k :| 0 <= k < |conflicts| && ((conflicts[k].leftId == m && conflicts[k].rightId == n)
                                          || (conflicts[k].leftId == n && conflicts[k].rightId == m));
        assert conflicts[k] in conflicts;
        var a, b :| 0 <= a < b < |puzzles| && Clashes(puzzles, minimum, a, b)
            && conflicts[k] == ConflictOf(puzzles, a, b);
      }
    }
  }

  lemma ClashesBothWays(puzzles: seq<Puzzle>, minimum: int, i: int, j: int)
    requires OnBoards(puzzles) && 0 <= i < |puzzles| && 0 <= j < |puzzles|
    ensures Clashes(puzzles, minimum, i, j) == Clashes(puzzles, minimum, j, i)
  {
    ApartIsPseudometric(puzzles[i].position, puzzles[j].position, puzzles[j].position);
    hide Apart, SolverKey;
  }

  // ---------------------------------------------------------------- main

  /** No two of these puzzles are closer than the minimum. */
  ghost predicate Dissimilar(puzzles: seq<Puzzle>, minimum: int, ids: set<string>) {
    forall i, j :: 0 <= i < j < |puzzles| && puzzles[i].id in ids && puzzles[j].id in ids
      ==> Apart(puzzles[i].position, puzzles[j].position) >= minimum
  }

  ghost predicate AllIn(puzzles: seq<Puzzle>, ids: set<string>) {
    forall id :: id in ids ==> exists i :: 0 <= i < |puzzles| && puzzles[i].id == id
  }

  function Retained(puzzles: seq<Puzzle>, kept: set<string>): seq<Puzzle> {
    if puzzles == [] then []
    else
      var last := puzzles[|puzzles| - 1];
      Retained(puzzles[..|puzzles| - 1], kept) + if last.id in kept then [last] else []
  }

  /** kept is a choice of mutually dissimilar puzzles that beats every other: it is larger, or as large
      with the lesser sum of places, or with that sum too has the first place that is in only one of
      the two. */
  ghost predicate BestChoice(puzzles: seq<Puzzle>, minimum: int, order: map<string, int>, kept: set<string>)
    requires Numbered(puzzles, order)
  {
    && AllIn(puzzles, kept) && Dissimilar(puzzles, minimum, kept)
    && forall ids :: AllIn(puzzles, ids) && Dissimilar(puzzles, minimum, ids) && ids != kept ==>
         && Ordered(kept, order) && Ordered(ids, order)
         && Beats(kept, ids, order)
  }

  /** The script: the puzzles kept are the best choice by the package's own order, and stay in it. */
  method Prune(puzzles: seq<Puzzle>, minimum: int)
    returns (r: Result<seq<Puzzle>>, kept: set<string>, order: map<string, int>)
    requires OnBoards(puzzles)
    ensures r.Ok? <==> Acceptable(puzzles, minimum)
    ensures r.Ok? ==> r.value == Retained(puzzles, kept) && Numbered(puzzles, order)
    ensures r.Ok? ==> BestChoice(puzzles, minimum, order, kept)
    ensures r.Ok? ==> (forall p :: p in r.value <==> p in puzzles && p.id in kept)
    ensures r.Ok? ==> forall i, j :: 0 <= i < j < |r.value| ==>
              r.value[i].id in order && r.value[j].id in order && order[r.value[i].id] < order[r.value[j].id]
  {
    hide Apart, Retained, Distance, Solve, Graph, BestChoice;
    kept, order := {}, map[];
    if minimum < 0 {
      return Err(NegativeDistance), {}, map[];
    }
    var found := FindPositionConflicts(puzzles, minimum);
    if found.Err? {
      return Err(found.error), {}, map[];
    }
    order := NumberPuzzles(puzzles);
    var neighbours := LinkPuzzles(order, found.value);
    GraphIsLinked(puzzles, minimum, order, found.value, neighbours);
    LinkedIsGraph(puzzles, minimum, neighbours, order);
    kept := LargestIndependentSet(order.Keys, neighbours, order);
    KeptIsBest(puzzles, minimum, neighbours, order);
    var out: seq<Puzzle> := [];
    NoneRetained(puzzles, kept);
    for i := 0 to |puzzles|
      invariant out == Retained(puzzles[..i], kept)
    {
      RetainedNext(puzzles, i, kept);
      if puzzles[i].id in kept {
        out := out + [puzzles[i]];
      }
    }
    assert puzzles[..|puzzles|] == puzzles;
    RetainedInOrder(puzzles, |puzzles|, kept, order);
    r := Ok(out);
  }

  lemma NoneRetained(puzzles: seq<Puzzle>, kept: set<string>)
    ensures Retained(puzzles[..0], kept) == []
  {}

  lemma RetainedNext(puzzles: seq<Puzzle>, i: nat, kept: set<string>)
    requires i < |puzzles|
    ensures Retained(puzzles[..i + 1], kept)
            == Retained(puzzles[..i], kept) + if puzzles[i].id in kept then [puzzles[i]] else []
  {
    assert puzzles[..i + 1][..i] == puzzles[..i];
  }

  /** The puzzles retained are those kept, in the order of their places. */
  lemma {:induction false} RetainedInOrder(puzzles: seq<Puzzle>, n: nat, kept: set<string>, order: map<string, int>)
    requires n <= |puzzles| && Numbered(puzzles, order)
    ensures forall p :: p in Retained(puzzles[..n], kept) <==> p in puzzles[..n] && p.id in kept
    ensures var l := Retained(puzzles[..n], kept);
            && (forall i :: 0 <= i < |l| ==> l[i].id in order && order[l[i].id] < n)
            && forall i, j :: 0 <= i < j < |l| ==> order[l[i].id] < order[l[j].id]
  {
    hide Retained;
    NoneRetained(puzzles, kept);
    if n > 0 {
      RetainedInOrder(puzzles, n - 1, kept, order);
      RetainedNext(puzzles, n - 1, kept);
      assert puzzles[..n] == puzzles[..n - 1] + [puzzles[n - 1]];
    }
  }

  lemma LinkedIsGraph(puzzles: seq<Puzzle>, minimum: int, neighbours: map<string, set<string>>, order: map<string, int>)
    requires Numbered(puzzles, order) && OnBoards(puzzles) && Linked(puzzles, minimum, neighbours, order)
    ensures Graph(order.Keys, neighbours, order)
  {
    hide Clashes, Fingerprint.OnBoard;
    forall m, n | m in order && n in order ensures m in neighbours[n] <==> n in neighbours[m] {
      ClashesBothWays(puzzles, minimum, order[m], order[n]);
    }
  }

  /** Independent in the graph means dissimilar. */
  lemma IndependentIsDissimilar(puzzles: seq<Puzzle>, minimum: int, neighbours: map<string, set<string>>,
                                order: map<string, int>, ids: set<string>)
    requires Numbered(puzzles, order) && OnBoards(puzzles) && Linked(puzzles, minimum, neighbours, order)
             && ids <= order.Keys
    ensures Independent(ids, neighbours) <==> Dissimilar(puzzles, minimum, ids)
  {
    hide Apart, Fingerprint.OnBoard;
    if Independent(ids, neighbours) {
      forall i, j | 0 <= i < j < |puzzles| && puzzles[i].id in ids && puzzles[j].id in ids
        ensures Apart(puzzles[i].position, puzzles[j].position) >= minimum
      {
        assert puzzles[j].id !in neighbours[puzzles[i].id];
      }
    }
    if Dissimilar(puzzles, minimum, ids) {
      forall m, n | m in ids && n in ids && m in neighbours ensures n !in neighbours[m] {
        ClashesBothWays(puzzles, minimum, order[m], order[n]);
        assert puzzles[order[m]].id == m && puzzles[order[n]].id == n;
      }
    }
  }

  lemma KeptIsBest(puzzles: seq<Puzzle>, minimum: int, neighbours: map<string, set<string>>, order: map<string, int>)
    requires Numbered(puzzles, order) && OnBoards(puzzles) && Linked(puzzles, minimum, neighbours, order)
    requires Graph(order.Keys, neighbours, order)
    ensures BestChoice(puzzles, minimum, order, Solve(order.Keys, neighbours, order))
  {
    hide Solve, Linked, Fingerprint.OnBoard, Dissimilar, Independent, Ordered, Beats, IsBest;
    var kept := Solve(order.Keys, neighbours, order);
    SolveIsBest(order.Keys, neighbours, order);
    BestParts(kept, order.Keys, neighbours, order);
    IndependentIsDissimilar(puzzles, minimum, neighbours, order, kept);
    KeysAreIn(puzzles, order, kept);
    forall ids | AllIn(puzzles, ids) && Dissimilar(puzzles, minimum, ids) && ids != kept
      ensures Ordered(kept, order) && Ordered(ids, order) && Beats(kept, ids, order)
    {
      InAreKeys(puzzles, order, ids);
      IndependentIsDissimilar(puzzles, minimum, neighbours, order, ids);
      BestBeats(kept, ids, order.Keys, neighbours, order);
    }
  }

  lemma KeysAreIn(puzzles: seq<Puzzle>, order: map<string, int>, ids: set<string>)
    requires Numbered(puzzles, order) && ids <= order.Keys
    ensures AllIn(puzzles, ids)
  {
    forall id | id in ids ensures exists i :: 0 <= i < |puzzles| && puzzles[i].id == id {
      assert puzzles[order[id]].id == id;
    }
  }

  lemma InAreKeys(puzzles: seq<Puzzle>, order: map<string, int>, ids: set<string>)
    requires Numbered(puzzles, order) && AllIn(puzzles, ids)
    ensures ids <= order.Keys
  {}
}
