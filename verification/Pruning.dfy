/** Keeping the largest set of mutually dissimilar puzzles: a recursive independent-set search
    whose answer is the best one under the whole preference order. */
module Pruning {
  type Node = string

  // ---------------------------------------------------------------- sorted orders

  ghost predicate Ascending(s: seq<int>) {
    forall i, j :: 0 <= i < j < |s| ==> s[i] < s[j]
  }

  /** A sorted list with x put in its place. */
  function Insert(x: int, s: seq<int>): (r: seq<int>)
    ensures |r| == |s| + 1
  {
    if s == [] || x < s[0] then [x] + s else [s[0]] + Insert(x, s[1..])
  }

  lemma {:induction false} InsertMembers(x: int, s: seq<int>, y: int)
    ensures y in Insert(x, s) <==> y == x || y in s
  {
    if s != [] && x >= s[0] {
      InsertMembers(x, s[1..], y);
      assert s == [s[0]] + s[1..];
    }
  }

  lemma {:induction false} InsertAscending(x: int, s: seq<int>)
    requires Ascending(s) && x !in s
    ensures Ascending(Insert(x, s))
  {
    if s != [] && x >= s[0] {
      assert Ascending(s[1..]) && x !in s[1..];
      InsertAscending(x, s[1..]);
      forall j | 0 <= j < |s| ensures s[0] < Insert(x, s[1..])[j] {
        var y := Insert(x, s[1..])[j];
        InsertMembers(x, s[1..], y);
        assert y in Insert(x, s[1..]);
      }
    }
  }

  /** Ascending lists with the same members are equal. */
  lemma {:induction false} AscendingUnique(a: seq<int>, b: seq<int>)
    requires Ascending(a) && Ascending(b) && forall x :: x in a <==> x in b
    ensures a == b
    decreases |a| + |b|
  {
    FirstIn(a);
    FirstIn(b);
    if a != [] && b != [] {
      assert a[0] == b[0];
      forall x ensures x in a[1..] <==> x in b[1..] {
        TailMembers(a, x);
        TailMembers(b, x);
      }
      AscendingUnique(a[1..], b[1..]);
      assert a == [a[0]] + a[1..] && b == [b[0]] + b[1..];
    }
  }

  lemma FirstIn(a: seq<int>)
    ensures a == [] || a[0] in a
  {}

  lemma TailMembers(a: seq<int>, x: int)
    requires a != [] && Ascending(a)
    ensures x in a[1..] <==> x in a && x != a[0]
  {
    assert a == [a[0]] + a[1..];
  }

  /** The orders of a set of nodes, ascending: sorted(ids, key=order.get) seen through order. */
  ghost predicate Lists(l: seq<int>, s: set<Node>, order: map<Node, int>) {
    && Ascending(l) && (forall n :: n in s ==> n in order && order[n] in l)
    && (forall x :: x in l ==> exists n :: n in s && n in order && order[n] == x)
  }

  ghost predicate Ordered(s: set<Node>, order: map<Node, int>) {
    && (forall n :: n in s ==> n in order)
    && (forall m, n :: m in s && n in s && order[m] == order[n] ==> m == n)
  }

  ghost function Orders(s: set<Node>, order: map<Node, int>): (l: seq<int>)
    requires Ordered(s, order)
    ensures Lists(l, s, order) && |l| == |s|
    decreases |s|
  {
    hide Insert, Ascending, Lists;
    if s == {} then
      NothingLists(order);
      []
    else
      var n :| n in s;
      var rest := s - {n};
      var l := Orders(rest, order);
      InsertLists(n, rest, order, l);
      assert rest + {n} == s;
      Insert(order[n], l)
  }

  lemma NothingLists(order: map<Node, int>)
    ensures Lists([], {}, order)
  {}

  lemma InsertLists(n: Node, s: set<Node>, order: map<Node, int>, l: seq<int>)
    requires n !in s && Ordered(s + {n}, order) && Lists(l, s, order)
    ensures Lists(Insert(order[n], l), s + {n}, order)
  {
    forall m | m in s ensures order[m] != order[n] { assert m in s + {n} && n in s + {n}; }
    InsertAscending(order[n], l);
    forall x ensures x in Insert(order[n], l) <==> x == order[n] || x in l { InsertMembers(order[n], l, x); }
  }

  lemma OrdersUnique(s: set<Node>, order: map<Node, int>, l: seq<int>)
    requires Ordered(s, order) && Lists(l, s, order)
    ensures Orders(s, order) == l
  {
    AscendingUnique(Orders(s, order), l);
  }

  /** Adding a node inserts its order. */
  lemma OrdersInsert(s: set<Node>, n: Node, order: map<Node, int>)
    requires n !in s && Ordered(s + {n}, order)
    ensures Ordered(s, order) && Orders(s + {n}, order) == Insert(order[n], Orders(s, order))
  {
    InsertLists(n, s, order, Orders(s, order));
    OrdersUnique(s + {n}, order, Insert(order[n], Orders(s, order)));
  }

  lemma OrdersInjective(s: set<Node>, t: set<Node>, order: map<Node, int>)
    requires Ordered(s + t, order) && Ordered(s, order) && Ordered(t, order) && Orders(s, order) == Orders(t, order)
    ensures s == t
  {
    forall n ensures n in s <==> n in t {
      if n in s { assert order[n] in Orders(t, order); }
      if n in t { assert order[n] in Orders(s, order); }
    }
  }

  // ---------------------------------------------------------------- the preference key

  function Sum(s: seq<int>): int {
    if s == [] then 0 else s[0] + Sum(s[1..])
  }

  function Negated(s: seq<int>): (r: seq<int>)
    ensures |r| == |s|
  {
    if s == [] then [] else [-s[0]] + Negated(s[1..])
  }

  /** x >= y for tuples. */
  predicate TupleAtLeast(x: seq<int>, y: seq<int>) {
    if y == [] then true
    else if x == [] then false
    else if x[0] != y[0] then x[0] > y[0]
    else TupleAtLeast(x[1..], y[1..])
  }

  /** left_key >= right_key, the keys being (size, -sum of orders, negated orders ascending). */
  predicate KeyAtLeast(a: seq<int>, b: seq<int>) {
    if |a| != |b| then |a| > |b|
    else if -Sum(a) != -Sum(b) then -Sum(a) > -Sum(b)
    else TupleAtLeast(Negated(a), Negated(b))
  }

  lemma {:induction false} TupleOrder(x: seq<int>, y: seq<int>, z: seq<int>)
    ensures TupleAtLeast(x, x)
    ensures TupleAtLeast(x, y) || TupleAtLeast(y, x)
    ensures TupleAtLeast(x, y) && TupleAtLeast(y, x) ==> x == y
    ensures TupleAtLeast(x, y) && TupleAtLeast(y, z) ==> TupleAtLeast(x, z)
    decreases |x| + |y| + |z|
  {
    if x != [] && y != [] && z != [] {
      TupleOrder(x[1..], y[1..], z[1..]);
      if x[0] == y[0] && x[1..] == y[1..] { assert x == [x[0]] + x[1..] && y == [y[0]] + y[1..]; }
    } else if x != [] && y != [] {
      TupleOrder(x[1..], y[1..], []);
      if x[0] == y[0] && x[1..] == y[1..] { assert x == [x[0]] + x[1..] && y == [y[0]] + y[1..]; }
    } else if x != [] {
      TupleOrder(x[1..], [], []);
    }
  }

  lemma {:induction false} NegatedInjective(x: seq<int>, y: seq<int>)
    requires Negated(x) == Negated(y)
    ensures x == y
  {
    if x != [] {
      assert |x| == |y|;
      assert Negated(x)[0] == Negated(y)[0] && Negated(x)[1..] == Negated(y)[1..];
      NegatedInjective(x[1..], y[1..]);
      assert x == [x[0]] + x[1..] && y == [y[0]] + y[1..];
    }
  }

  /** The key comparison is a total order on ascending lists of orders. */
  lemma KeyOrder(a: seq<int>, b: seq<int>, c: seq<int>)
    ensures KeyAtLeast(a, a)
    ensures KeyAtLeast(a, b) || KeyAtLeast(b, a)
    ensures KeyAtLeast(a, b) && KeyAtLeast(b, a) ==> a == b
    ensures KeyAtLeast(a, b) && KeyAtLeast(b, c) ==> KeyAtLeast(a, c)
  {
    TupleOrder(Negated(a), Negated(b), Negated(c));
    hide TupleAtLeast, Negated, Sum;
    if Negated(a) == Negated(b) { NegatedInjective(a, b); }
  }

  lemma {:induction false} SumInsert(x: int, s: seq<int>)
    ensures Sum(Insert(x, s)) == x + Sum(s)
  {
    if s == [] || x < s[0] {
      assert ([x] + s)[1..] == s;
    } else {
      SumInsert(x, s[1..]);
      assert ([s[0]] + Insert(x, s[1..]))[1..] == Insert(x, s[1..]);
    }
  }

  lemma TupleUnfold(x: int, s: seq<int>, y: int, t: seq<int>)
    ensures TupleAtLeast(Negated([x] + s), Negated([y] + t))
            <==> if x != y then x < y else TupleAtLeast(Negated(s), Negated(t))
  {
    NegatedCons(x, s);
    NegatedCons(y, t);
    hide Negated;
    TupleCons(-x, Negated(s), -y, Negated(t));
  }

  lemma NegatedCons(x: int, s: seq<int>)
    ensures Negated([x] + s) == [-x] + Negated(s)
  {
    assert ([x] + s)[1..] == s;
  }

  lemma TupleCons(x: int, s: seq<int>, y: int, t: seq<int>)
    ensures TupleAtLeast([x] + s, [y] + t) <==> if x != y then x > y else TupleAtLeast(s, t)
  {
    assert ([x] + s)[1..] == s && ([y] + t)[1..] == t;
  }

  /** The list order survives inserting one new element on both sides. */
  lemma {:induction false} TupleInsert(x: int, a: seq<int>, b: seq<int>)
    requires |a| == |b| && x !in a && x !in b && Ascending(a) && Ascending(b)
    requires TupleAtLeast(Negated(a), Negated(b))
    ensures TupleAtLeast(Negated(Insert(x, a)), Negated(Insert(x, b)))
  {
    hide Negated, TupleAtLeast, Ascending;
    if a == [] {
      TupleOrder(Negated([x]), [], []);
      assert Insert(x, a) == [x] && Insert(x, b) == [x];
    } else {
      assert a == [a[0]] + a[1..] && b == [b[0]] + b[1..];
      TupleUnfold(a[0], a[1..], b[0], b[1..]);
      assert a[0] in a && b[0] in b;
      TupleUnfold(x, a, x, b);
      TupleUnfold(a[0], Insert(x, a[1..]), x, b);
      TupleUnfold(a[0], Insert(x, a[1..]), b[0], Insert(x, b[1..]));
      if a[0] == b[0] && a[0] < x {
        TailAscending(a);
        TailAscending(b);
        TupleInsert(x, a[1..], b[1..]);
      }
    }
  }

  lemma TailAscending(a: seq<int>)
    requires a != [] && Ascending(a)
    ensures Ascending(a[1..]) && forall x :: x !in a ==> x !in a[1..]
  {}

  /** So does the whole key order. */
  lemma KeyInsert(x: int, a: seq<int>, b: seq<int>)
    requires x !in a && x !in b && Ascending(a) && Ascending(b) && KeyAtLeast(a, b)
    ensures KeyAtLeast(Insert(x, a), Insert(x, b))
  {
    SumInsert(x, a);
    SumInsert(x, b);
    hide Insert, Negated, TupleAtLeast, Sum, Ascending;
    if |a| == |b| && Sum(a) == Sum(b) {
      TupleInsert(x, a, b);
    }
  }

  // ---------------------------------------------------------------- the search

  /** A finite undirected graph without loops, its nodes told apart by their order. */
  ghost predicate Graph(nodes: set<Node>, neighbours: map<Node, set<Node>>, order: map<Node, int>) {
    && Ordered(nodes, order)
    && (forall n :: n in nodes ==> n in neighbours && n !in neighbours[n])
    && (forall m, n :: m in nodes && n in nodes ==> (m in neighbours[n] <==> n in neighbours[m]))
  }

  lemma Subgraph(nodes: set<Node>, part: set<Node>, neighbours: map<Node, set<Node>>, order: map<Node, int>)
    requires Graph(nodes, neighbours, order) && part <= nodes
    ensures Graph(part, neighbours, order)
  {}

  ghost predicate Independent(s: set<Node>, neighbours: map<Node, set<Node>>) {
    forall m, n :: m in s && n in s && m in neighbours ==> n !in neighbours[m]
  }

  /** _prefer. */
  ghost function Prefer(left: set<Node>, right: set<Node>, order: map<Node, int>): (r: set<Node>)
    requires Ordered(left, order) && Ordered(right, order)
    ensures r == left || r == right
  {
    if KeyAtLeast(Orders(left, order), Orders(right, order)) then left else right
  }

  /** The pivot's key: most neighbours still available, then the least order. */
  predicate PivotBelow(m: Node, n: Node, available: set<Node>, neighbours: map<Node, set<Node>>, order: map<Node, int>)
    requires m in neighbours && n in neighbours && m in order && n in order
  {
    var dm, dn := |neighbours[m] * available|, |neighbours[n] * available|;
    dm < dn || (dm == dn && order[m] > order[n])
  }

  predicate IsPivot(p: Node, among: set<Node>, available: set<Node>, neighbours: map<Node, set<Node>>,
          order: map<Node, int>)
  {
    && p in among && p in neighbours && p in order
    && forall n ::
         n in among && n in neighbours && n in order && n != p ==> PivotBelow(n, p, available, neighbours, order)
  }

  lemma {:induction false} PivotExists(among: set<Node>, available: set<Node>, neighbours: map<Node, set<Node>>,
                                       order: map<Node, int>)
    requires among != {} && Graph(among, neighbours, order)
    ensures exists p :: IsPivot(p, among, available, neighbours, order)
    decreases |among|
  {
    var p :| p in among;
    if among == {p} {
      assert IsPivot(p, among, available, neighbours, order);
    } else {
      var rest := among - {p};
      Subgraph(among, rest, neighbours, order);
      PivotExists(rest, available, neighbours, order);
      var q :| IsPivot(q, rest, available, neighbours, order);
      if PivotBelow(p, q, available, neighbours, order) {
        assert IsPivot(q, among, available, neighbours, order);
      } else {
        assert IsPivot(p, among, available, neighbours, order);
      }
    }
  }

  /** solve, inside _largest_independent_set. */
  ghost function Solve(available: set<Node>, neighbours: map<Node, set<Node>>, order: map<Node, int>): (r: set<Node>)
    requires Graph(available, neighbours, order)
    ensures r <= available
    decreases |available|
  {
    if available == {} then {}
    else
      PivotExists(available, available, neighbours, order);
      var pivot :| IsPivot(pivot, available, available, neighbours, order);
      Subgraph(available, available - {pivot}, neighbours, order);
      Subgraph(available, available - {pivot} - neighbours[pivot], neighbours, order);
      var withoutPivot := Solve(available - {pivot}, neighbours, order);
      var withPivot := {pivot} + Solve(available - {pivot} - neighbours[pivot], neighbours, order);
      Subgraph(available, withPivot, neighbours, order);
      Subgraph(available, withoutPivot, neighbours, order);
      Prefer(withPivot, withoutPivot, order)
  }

  // ---------------------------------------------------------------- optimality

  /** s is independent and no independent subset of available is preferred to it. */
  ghost predicate IsBest(s: set<Node>, available: set<Node>, neighbours: map<Node, set<Node>>, order: map<Node, int>)
    requires Graph(available, neighbours, order)
  {
    && s <= available && Independent(s, neighbours)
    && forall t :: t <= available && Independent(t, neighbours) ==> AtLeast(s, t, order)
  }

  /** s is at least as good as t under the whole preference key. */
  ghost predicate AtLeast(s: set<Node>, t: set<Node>, order: map<Node, int>) {
    Ordered(s, order) && Ordered(t, order) && KeyAtLeast(Orders(s, order), Orders(t, order))
  }

  lemma AtLeastOrder(s: set<Node>, t: set<Node>, u: set<Node>, order: map<Node, int>)
    requires Ordered(s, order) && Ordered(t, order) && Ordered(u, order) && Ordered(s + t, order)
    ensures AtLeast(s, s, order)
    ensures AtLeast(s, t, order) || AtLeast(t, s, order)
    ensures AtLeast(s, t, order) && AtLeast(t, s, order) ==> s == t
    ensures AtLeast(s, t, order) && AtLeast(t, u, order) ==> AtLeast(s, u, order)
  {
    KeyOrder(Orders(s, order), Orders(t, order), Orders(u, order));
    hide KeyAtLeast;
    if Orders(s, order) == Orders(t, order) { OrdersInjective(s, t, order); }
  }

  lemma AtLeastInsert(p: Node, s: set<Node>, t: set<Node>, order: map<Node, int>)
    requires p !in s && p !in t && Ordered(s + {p}, order) && Ordered(t + {p}, order) && AtLeast(s, t, order)
    ensures AtLeast(s + {p}, t + {p}, order)
  {
    OrdersInsert(s, p, order);
    OrdersInsert(t, p, order);
    hide KeyAtLeast, Insert;
    assert order[p] !in Orders(s, order) && order[p] !in Orders(t, order);
    KeyInsert(order[p], Orders(s, order), Orders(t, order));
  }

  lemma OrderedPart(s: set<Node>, all: set<Node>, order: map<Node, int>)
    requires s <= all && Ordered(all, order)
    ensures Ordered(s, order)
  {}

  /** One level of the recursion, for any pivot whatever: the preferred of the two branches is best
      when both branches are best for what they may use. */
  lemma BranchesAreBest(p: Node, available: set<Node>, neighbours: map<Node, set<Node>>, order: map<Node, int>,
                        with: set<Node>, without: set<Node>)
    requires Graph(available, neighbours, order) && p in available
    requires Graph(available - {p}, neighbours, order) && Graph(available - {p} - neighbours[p], neighbours, order)
    requires IsBest(without, available - {p}, neighbours, order)
    requires IsBest(with, available - {p} - neighbours[p], neighbours, order)
    ensures Ordered({p} + with, order) && Ordered(without, order)
    ensures IsBest(Prefer({p} + with, without, order), available, neighbours, order)
  {
    hide AtLeast;
    OrderedPart({p} + with, available, order);
    OrderedPart(without, available, order);
    PreferIsAtLeast({p} + with, without, available, order);
    var r := Prefer({p} + with, without, order);
    WithPivotIndependent(p, available, neighbours, order, with);
    forall t | t <= available && Independent(t, neighbours) ensures AtLeast(r, t, order) {
      OrderedPart(t, available, order);
      OrderedPart(r, available, order);
      OrderedPart(r + ({p} + with), available, order);
      OrderedPart(r + without, available, order);
      if p in t {
        PivotTaken(p, available, neighbours, order, with, t);
        AtLeastOrder(r, {p} + with, t, order);
      } else {
        assert t <= available - {p};
        AtLeastOrder(r, without, t, order);
      }
    }
  }

  lemma PreferIsAtLeast(left: set<Node>, right: set<Node>, all: set<Node>, order: map<Node, int>)
    requires left <= all && right <= all && Ordered(all, order) && Ordered(left, order) && Ordered(right, order)
    ensures AtLeast(Prefer(left, right, order), left, order) && AtLeast(Prefer(left, right, order), right, order)
  {
    OrderedPart(left + right, all, order);
    AtLeastOrder(left, right, right, order);
    AtLeastOrder(left, right, left, order);
    hide KeyAtLeast;
    OrderedPart(right + left, all, order);
    AtLeastOrder(right, left, left, order);
  }

  lemma WithPivotIndependent(p: Node, available: set<Node>, neighbours: map<Node, set<Node>>, order: map<Node, int>,
          with: set<Node>)
    requires Graph(available, neighbours, order) && p in available
    requires with <= available - {p} - neighbours[p] && Independent(with, neighbours)
    ensures Independent({p} + with, neighbours)
  {}

  lemma PivotTaken(p: Node, available: set<Node>, neighbours: map<Node, set<Node>>, order: map<Node, int>,
          with: set<Node>, t: set<Node>)
    requires Graph(available, neighbours, order) && p in available
             && Graph(available - {p} - neighbours[p], neighbours, order)
    requires IsBest(with, available - {p} - neighbours[p], neighbours, order)
    requires t <= available && Independent(t, neighbours) && p in t
    ensures AtLeast({p} + with, t, order)
  {
    hide AtLeast;
    var rest := t - {p};
    assert rest <= available - {p} - neighbours[p];
    assert AtLeast(with, rest, order);
    assert with + {p} == {p} + with && rest + {p} == t;
    OrderedPart(with + {p}, available, order);
    OrderedPart(rest + {p}, available, order);
    AtLeastInsert(p, with, rest, order);
  }

  /** The search returns an independent set of greatest size, and among those the one with the least
      sum of orders, and among those the lexicographically preferred one. */
  lemma {:induction false} SolveIsBest(available: set<Node>, neighbours: map<Node, set<Node>>, order: map<Node, int>)
    requires Graph(available, neighbours, order)
    ensures IsBest(Solve(available, neighbours, order), available, neighbours, order)
    decreases |available|
  {
    hide Solve, IsBest, Prefer, Independent, Ordered;
    if available == {} {
      NothingIsBest(neighbours, order);
    } else {
      var pivot := SolveUnfold(available, neighbours, order);
      SolveIsBest(available - {pivot}, neighbours, order);
      SolveIsBest(available - {pivot} - neighbours[pivot], neighbours, order);
      BranchesAreBest(pivot, available, neighbours, order,
                      Solve(available - {pivot} - neighbours[pivot], neighbours, order),
                      Solve(available - {pivot}, neighbours, order));
    }
  }

  lemma NothingIsBest(neighbours: map<Node, set<Node>>, order: map<Node, int>)
    requires Graph({}, neighbours, order)
    ensures IsBest(Solve({}, neighbours, order), {}, neighbours, order)
  {
    NothingOrders(order);
    KeyOrder([], [], []);
  }

  lemma SolveUnfold(available: set<Node>, neighbours: map<Node, set<Node>>, order: map<Node, int>) returns (pivot: Node)
    requires Graph(available, neighbours, order) && available != {}
    ensures pivot in available
    ensures Graph(available - {pivot}, neighbours, order)
    ensures Graph(available - {pivot} - neighbours[pivot], neighbours, order)
    ensures var with, without := {pivot} + Solve(available - {pivot} - neighbours[pivot], neighbours, order),
                                 Solve(available - {pivot}, neighbours, order);
            Ordered(with, order) && Ordered(without, order)
            && Solve(available, neighbours, order) == Prefer(with, without, order)
  {
    PivotExists(available, available, neighbours, order);
    var p :| IsPivot(p, available, available, neighbours, order);
    forall q | IsPivot(q, available, available, neighbours, order) ensures q == p {
      hide Graph;
    }
    pivot := p;
    Subgraph(available, available - {pivot}, neighbours, order);
    Subgraph(available, available - {pivot} - neighbours[pivot], neighbours, order);
    Subgraph(available, {pivot} + Solve(available - {pivot} - neighbours[pivot], neighbours, order), neighbours, order);
    Subgraph(available, Solve(available - {pivot}, neighbours, order), neighbours, order);
    hide Prefer, IsPivot;
  }

  /** There is only one best set. */
  lemma BestIsUnique(s: set<Node>, t: set<Node>, available: set<Node>, neighbours: map<Node, set<Node>>,
          order: map<Node, int>)
    requires Graph(available, neighbours, order)
    requires IsBest(s, available, neighbours, order) && IsBest(t, available, neighbours, order)
    ensures s == t
  {
    hide AtLeast;
    OrderedPart(s, available, order);
    OrderedPart(t, available, order);
    OrderedPart(s + t, available, order);
    AtLeastOrder(s, t, t, order);
  }

  lemma BestParts(s: set<Node>, available: set<Node>, neighbours: map<Node, set<Node>>, order: map<Node, int>)
    requires Graph(available, neighbours, order) && IsBest(s, available, neighbours, order)
    ensures s <= available && Independent(s, neighbours)
  {}

  /** The best set beats every independent set, and only itself draws level. */
  lemma BestOver(s: set<Node>, t: set<Node>, available: set<Node>, neighbours: map<Node, set<Node>>,
          order: map<Node, int>)
    requires Graph(available, neighbours, order) && IsBest(s, available, neighbours, order)
    requires t <= available && Independent(t, neighbours)
    ensures AtLeast(s, t, order) && (AtLeast(t, s, order) ==> t == s)
  {
    hide AtLeast;
    OrderedPart(s, available, order);
    OrderedPart(t, available, order);
    OrderedPart(s + t, available, order);
    AtLeastOrder(s, t, t, order);
  }

  /** Branching on any other available node instead of the pivot gives the same answer. */
  lemma PivotIsIrrelevant(p: Node, available: set<Node>, neighbours: map<Node, set<Node>>, order: map<Node, int>)
    requires Graph(available, neighbours, order) && p in available
    ensures Graph(available - {p}, neighbours, order) && Graph(available - {p} - neighbours[p], neighbours, order)
    ensures var with, without := {p} + Solve(available - {p} - neighbours[p], neighbours, order),
                                 Solve(available - {p}, neighbours, order);
            Ordered(with, order) && Ordered(without, order)
            && Solve(available, neighbours, order) == Prefer(with, without, order)
  {
    Subgraph(available, available - {p}, neighbours, order);
    Subgraph(available, available - {p} - neighbours[p], neighbours, order);
    SolveIsBest(available, neighbours, order);
    SolveIsBest(available - {p}, neighbours, order);
    SolveIsBest(available - {p} - neighbours[p], neighbours, order);
    hide Solve, IsBest, Prefer;
    var with, without := Solve(available - {p} - neighbours[p], neighbours, order),
        Solve(available - {p}, neighbours, order);
    BranchesAreBest(p, available, neighbours, order, with, without);
    BestIsUnique(Solve(available, neighbours, order), Prefer({p} + with, without, order), available, neighbours, order);
  }

  /** In particular it is as large as any independent set. */
  lemma SolveIsLargest(available: set<Node>, neighbours: map<Node, set<Node>>, order: map<Node, int>, t: set<Node>)
    requires Graph(available, neighbours, order) && t <= available && Independent(t, neighbours)
    ensures |t| <= |Solve(available, neighbours, order)|
  {
    SolveIsBest(available, neighbours, order);
    assert AtLeast(Solve(available, neighbours, order), t, order);
  }

  // ---------------------------------------------------------------- what the preference means

  /** The sum of the orders of a set of nodes. */
  ghost function SumOf(s: set<Node>, order: map<Node, int>): int
    requires Ordered(s, order)
    decreases |s|
  {
    if s == {} then 0
    else
      var n :| n in s;
      OrderedPart(s - {n}, s, order);
      order[n] + SumOf(s - {n}, order)
  }

  /** s is larger, or no larger but of the lesser sum, or of no lesser sum but in possession of the
      first node that is in only one of the two. */
  ghost predicate Beats(s: set<Node>, t: set<Node>, order: map<Node, int>)
    requires Ordered(s, order) && Ordered(t, order)
  {
    || |s| > |t|
    || (|s| == |t| && SumOf(s, order) < SumOf(t, order))
    || (|s| == |t| && SumOf(s, order) == SumOf(t, order) && HasFirst(s, t, order))
  }

  ghost predicate HasFirst(s: set<Node>, t: set<Node>, order: map<Node, int>)
    requires Ordered(s, order) && Ordered(t, order)
  {
    exists n :: n in s && n !in t && forall m :: m in t && m !in s ==> order[n] < order[m]
  }

  lemma {:induction false} SumIs(s: set<Node>, order: map<Node, int>)
    requires Ordered(s, order)
    ensures SumOf(s, order) == Sum(Orders(s, order))
    decreases |s|
  {
    hide Orders, Ordered, Insert, Sum;
    if s == {} {
      NothingOrders(order);
      SumNothing();
    } else {
      var n := SumUnfold(s, order);
      assert s - {n} + {n} == s;
      OrdersInsert(s - {n}, n, order);
      InOrder(n, s, order);
      SumInsert(order[n], Orders(s - {n}, order));
      SumIs(s - {n}, order);
    }
  }

  lemma SumNothing()
    ensures Sum([]) == 0
  {}

  lemma SumUnfold(s: set<Node>, order: map<Node, int>) returns (n: Node)
    requires Ordered(s, order) && s != {}
    ensures n in s && n in order && Ordered(s - {n}, order)
    ensures SumOf(s, order) == order[n] + SumOf(s - {n}, order)
  {
    n :| n in s && SumOf(s, order) == order[n] + SumOf(s - {n}, order);
  }

  /** Of two ascending lists of one length the preferred one has the first entry that is not in both. */
  lemma {:induction false} TupleHasFirst(a: seq<int>, b: seq<int>) returns (x: int)
    requires Ascending(a) && Ascending(b) && |a| == |b| && a != b && TupleAtLeast(Negated(a), Negated(b))
    ensures x in a && x !in b && forall y :: y in b && y !in a ==> x < y
  {
    hide Ascending, TupleAtLeast, Negated;
    assert a != [] && b != [];
    assert a == [a[0]] + a[1..] && b == [b[0]] + b[1..];
    TupleUnfold(a[0], a[1..], b[0], b[1..]);
    TailAscending(a);
    TailAscending(b);
    FirstIsLeast(a);
    FirstIsLeast(b);
    x := a[0];
    if a[0] == b[0] {
      x := TupleHasFirst(a[1..], b[1..]);
    }
  }

  lemma FirstIsLeast(a: seq<int>)
    requires a != [] && Ascending(a)
    ensures forall y :: y in a[1..] ==> a[0] < y
  {}

  lemma NotListed(s: set<Node>, t: set<Node>, m: Node, order: map<Node, int>)
    requires Ordered(s, order) && Ordered(t, order) && Ordered(s + t, order) && m in t && m !in s
    ensures m in order && order[m] in Orders(t, order) && order[m] !in Orders(s, order)
  {
    forall k | k in s ensures k in order && order[k] != order[m] { assert k in s + t && m in s + t; }
  }

  /** The best set beats every other independent set. */
  lemma BestBeats(s: set<Node>, t: set<Node>, available: set<Node>, neighbours: map<Node, set<Node>>,
                  order: map<Node, int>)
    requires Graph(available, neighbours, order) && IsBest(s, available, neighbours, order)
    requires t <= available && Independent(t, neighbours) && t != s
    ensures Ordered(s, order) && Ordered(t, order) && Beats(s, t, order)
  {
    OrderedPart(s, available, order);
    OrderedPart(t, available, order);
    OrderedPart(s + t, available, order);
    BestOver(s, t, available, neighbours, order);
    hide Graph, IsBest, Independent, Orders, SumOf, Sum, TupleAtLeast, Negated, Ascending;
    SumIs(s, order);
    SumIs(t, order);
    var a, b := Orders(s, order), Orders(t, order);
    if |s| == |t| && SumOf(s, order) == SumOf(t, order) {
      if a == b { OrdersInjective(s, t, order); }
      var x := TupleHasFirst(a, b);
      var n :| n in s && n in order && order[n] == x;
      forall m | m in t && m !in s ensures order[n] < order[m] { NotListed(s, t, m, order); }
    }
  }

  // ---------------------------------------------------------------- running it

  lemma InOrder(n: Node, s: set<Node>, order: map<Node, int>)
    requires n in s && Ordered(s, order)
    ensures n in order
  {}

  method SortedOrders(s: set<Node>, order: map<Node, int>) returns (l: seq<int>)
    requires Ordered(s, order)
    ensures l == Orders(s, order)
  {
    l := [];
    var rest := s;
    ghost var done: set<Node> := {};
    hide Orders, Ordered, Insert;
    NothingOrders(order);
    while rest != {}
      invariant done !! rest && done + rest == s
      invariant Ordered(done, order) && l == Orders(done, order)
      decreases |rest|
    {
      var n :| n in rest;
      OrderedPart(done + {n}, s, order);
      InOrder(n, s, order);
      OrdersInsert(done, n, order);
      l := Insert(order[n], l);
      done, rest := done + {n}, rest - {n};
    }
    assert done == s;
  }

  lemma NothingOrders(order: map<Node, int>)
    ensures Ordered({}, order) && Orders({}, order) == []
  {}

  method Preferred(left: set<Node>, right: set<Node>, order: map<Node, int>) returns (r: set<Node>)
    requires Ordered(left, order) && Ordered(right, order)
    ensures r == Prefer(left, right, order)
  {
    var l := SortedOrders(left, order);
    var m := SortedOrders(right, order);
    if KeyAtLeast(l, m) {
      r := left;
    } else {
      r := right;
    }
  }

  /** _largest_independent_set, without the memo. */
  method LargestIndependentSet(available: set<Node>, neighbours: map<Node, set<Node>>, order: map<Node, int>)
    returns (r: set<Node>)
    requires Graph(available, neighbours, order)
    ensures r == Solve(available, neighbours, order)
    decreases |available|
  {
    if available == {} {
      return {};
    }
    PivotExists(available, available, neighbours, order);
    var pivot :| pivot in available && IsPivot(pivot, available, available, neighbours, order);
    PivotIsIrrelevant(pivot, available, neighbours, order);
    hide Solve, Prefer, IsPivot;
    var withoutPivot := LargestIndependentSet(available - {pivot}, neighbours, order);
    var rest := LargestIndependentSet(available - {pivot} - neighbours[pivot], neighbours, order);
    r := Preferred({pivot} + rest, withoutPivot, order);
  }
}
