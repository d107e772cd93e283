/** init_rules: the loops that fill the standard and Lasker tables produce the board's lines and
    edges. */
module RuleTables {
  import opened MillRules
  import opened Game

  /** The first n rows hold the three points of each line. */
  ghost predicate HoldsLines(t: array2<nat>, n: nat)
    requires t.Length0 == 16 && t.Length1 == 3 && n <= 16
    reads t
  {
    forall j: nat :: j < n ==> t[j, 0] == Line(j).0 && t[j, 1] == Line(j).1 && t[j, 2] == Line(j).2
  }

  /** stdLaskerMillPos. */
  method FillMillPos() returns (t: array2<nat>)
    ensures fresh(t) && t.Length0 == 16 && t.Length1 == 3 && HoldsLines(t, 16)
  {
    t := new nat[16, 3];
    FillFirst(t);
    FillRings(t);
    FillSpokes(t);
  }

  method FillFirst(t: array2<nat>)
    requires t.Length0 == 16 && t.Length1 == 3
    modifies t
    ensures HoldsLines(t, 4)
  {
    hide Line, HoldsLines;
    FirstLines();
    NoLines(t);
    FillRow(t, 0, 1, 2, 3);
    FillRow(t, 1, 3, 4, 5);
    FillRow(t, 2, 5, 6, 7);
    FillRow(t, 3, 7, 0, 1);
  }

  lemma NoLines(t: array2<nat>)
    requires t.Length0 == 16 && t.Length1 == 3
    ensures HoldsLines(t, 0)
  {}

  method FillRow(t: array2<nat>, j: nat, x: nat, y: nat, z: nat)
    requires t.Length0 == 16 && t.Length1 == 3 && j < 16 && HoldsLines(t, j)
    requires x == Line(j).0 && y == Line(j).1 && z == Line(j).2
    modifies t
    ensures HoldsLines(t, j + 1)
  {
    hide Line;
    t[j, 0], t[j, 1], t[j, 2] := x, y, z;
  }

  method FillRings(t: array2<nat>)
    requires t.Length0 == 16 && t.Length1 == 3 && HoldsLines(t, 4)
    modifies t
    ensures HoldsLines(t, 12)
  {
    hide Line;
    for i := 4 to 12
      invariant HoldsLines(t, i)
    {
      RingBelow(i);
      t[i, 0] := t[i - 4, 0] + 8;
      t[i, 1] := t[i - 4, 1] + 8;
      t[i, 2] := t[i - 4, 2] + 8;
    }
  }

  method FillSpokes(t: array2<nat>)
    requires t.Length0 == 16 && t.Length1 == 3 && HoldsLines(t, 12)
    modifies t
    ensures HoldsLines(t, 16)
  {
    hide Line;
    t[12, 0], t[13, 0], t[14, 0], t[15, 0] := 0, 2, 4, 6;
    for i := 12 to 16
      invariant HoldsLines(t, i)
      invariant forall j: nat :: 12 <= j < 16 ==> t[j, 0] == 2 * (j - 12)
    {
      Spokes(i);
      t[i, 1] := t[i, 0] + 8;
      t[i, 2] := t[i, 0] + 16;
    }
  }

  lemma LineIs(j: nat, ring: nat, side: nat)
    requires j < 12 && side < 4 && j == 4 * ring + side
    ensures Line(j).0 == 8 * ring + 2 * side + 1
    ensures Line(j).1 == 8 * ring + (if side == 3 then 0 else 2 * side + 2)
    ensures Line(j).2 == 8 * ring + (if side == 3 then 1 else 2 * side + 3)
  {
    assert j / 4 == ring && j % 4 == side;
    assert (2 * side + 2) % 8 == if side == 3 then 0 else 2 * side + 2;
    assert (2 * side + 3) % 8 == if side == 3 then 1 else 2 * side + 3;
  }

  /** The same line one ring further in. */
  lemma RingBelow(i: nat)
    requires 4 <= i < 12
    ensures Line(i).0 == Line(i - 4).0 + 8 && Line(i).1 == Line(i - 4).1 + 8 && Line(i).2 == Line(i - 4).2 + 8
  {
    hide Line;
    var ring, side := i / 4, i % 4;
    LineIs(i, ring, side);
    LineIs(i - 4, ring - 1, side);
  }

  lemma FirstLines()
    ensures Line(0).0 == 1 && Line(0).1 == 2 && Line(0).2 == 3 && Line(1).0 == 3 && Line(1).1 == 4 && Line(1).2 == 5
    ensures Line(2).0 == 5 && Line(2).1 == 6 && Line(2).2 == 7 && Line(3).0 == 7 && Line(3).1 == 0 && Line(3).2 == 1
  {
    hide Line;
    LineIs(0, 0, 0);
    LineIs(1, 0, 1);
    LineIs(2, 0, 2);
    LineIs(3, 0, 3);
  }

  lemma Spokes(j: nat)
    requires 12 <= j < 16
    ensures Line(j).0 == 2 * (j - 12) && Line(j).1 == 2 * (j - 12) + 8 && Line(j).2 == 2 * (j - 12) + 16
  {}

  /** One row of stdLaskerInvMillPos: the lines through point i. */
  method FillInvMillPos(t: array2<nat>, i: Point) returns (l: seq<nat>)
    requires t.Length0 == 16 && t.Length1 == 3 && HoldsLines(t, 16)
    ensures l == Through(i, 16)
  {
    hide Line, Through;
    ThroughNone(i);
    l := [];
    for j := 0 to 16
      invariant l == Through(i, j)
    {
      var kell := false;
      for k := 0 to 3
        invariant kell <==> exists m: nat :: m < k && t[j, m] == i
      {
        if t[j, k] == i {
          kell := true;
        }
      }
      assert kell <==> t[j, 0] == i || t[j, 1] == i || t[j, 2] == i;
      ThroughNext(i, j);
      if kell {
        l := l + [j];
      }
    }
  }

  lemma ThroughNone(i: Point)
    ensures Through(i, 0) == []
  {}

  lemma ThroughNext(i: Point, j: nat)
    requires j < 16
    ensures Through(i, j + 1) == if OnLine(i, j) then Through(i, j) + [j] else Through(i, j)
  {
    hide OnLine;
  }

  /** stdLaskerBoardGraph: edges one way, then closed under exchanging the ends in place. */
  method FillBoardGraph() returns (g: array2<bool>)
    ensures fresh(g) && g.Length0 == 24 && g.Length1 == 24
    ensures forall i: Point, j: Point :: g[i, j] <==> Adjacent(i, j)
  {
    g := FillEdges();
    for i := 0 to 24
      invariant forall x: Point, y: Point :: g[x, y] <==> Edge(x, y) || (Edge(y, x) && y < i)
    {
      for j := 0 to 24
        invariant forall x: Point, y: Point :: g[x, y] <==> Edge(x, y) || (Edge(y, x) && (y < i || (y == i && x < j)))
      {
        hide Edge;
        if g[i, j] {
          g[j, i] := true;
        }
      }
    }
  }

  method FillEdges() returns (g: array2<bool>)
    ensures fresh(g) && g.Length0 == 24 && g.Length1 == 24
    ensures forall i: Point, j: Point :: g[i, j] <==> Edge(i, j)
  {
    g := new bool[24, 24]((i, j) => false);
    for i := 0 to 7
      invariant forall x: Point, y: Point :: g[x, y] <==> x < i && y == x + 1
    {
      g[i, i + 1] := true;
    }
    g[7, 0] := true;
    for i := 8 to 15
      invariant forall x: Point, y: Point :: g[x, y] <==> RingEdge(x, y) && (x < 8 || x < i)
    {
      g[i, i + 1] := true;
    }
    g[15, 8] := true;
    for i := 16 to 23
      invariant forall x: Point, y: Point :: g[x, y] <==> RingEdge(x, y) && (x < 16 || x < i)
    {
      g[i, i + 1] := true;
    }
    g[23, 16] := true;
    var j := 0;
    while j <= 6
      invariant 0 <= j <= 8 && j % 2 == 0
      invariant forall x: Point, y: Point :: g[x, y] <==> RingEdge(x, y) || (Spoke(x, y) && x % 8 < j)
    {
      g[j, j + 8] := true;
      g[j + 8, j + 16] := true;
      j := j + 2;
    }
    assert forall x: Point, y: Point :: Edge(x, y) <==> RingEdge(x, y) || Spoke(x, y);
  }

  /** The next point around a ring. */
  predicate RingEdge(x: Point, y: Point) {
    y == if x % 8 == 7 then x - 7 else x + 1
  }

  predicate Spoke(x: Point, y: Point) {
    x < 16 && x % 2 == 0 && y == x + 8
  }

  /** One row of stdLaskerALBoardGraph, after its count: the neighbours of point i. */
  method FillAdjacency(g: array2<bool>, i: Point) returns (row: seq<Point>)
    requires g.Length0 == 24 && g.Length1 == 24 && forall x: Point, y: Point :: g[x, y] <==> Adjacent(x, y)
    ensures row == Neighbours(i, 24)
  {
    hide Adjacent;
    row := [];
    for j := 0 to 24
      invariant row == Neighbours(i, j)
    {
      if g[i, j] {
        row := row + [j];
      }
    }
  }
}
