/** The puzzle scripts' symmetries, computed from board coordinates, are the engine's sixteen. */
module PuzzleSymmetries {
  import opened Symmetry
  import opened BoardSymmetries

  /** COORDINATES, in the order of PERFECT_LABELS. */
  const COORDINATES: seq<(int, int)> := [
    (-3, 0), (-3, -3), (0, -3), (3, -3), (3, 0), (3, 3), (0, 3), (-3, 3),
    (-2, 0), (-2, -2), (0, -2), (2, -2), (2, 0), (2, 2), (0, 2), (-2, 2),
    (-1, 0), (-1, -1), (0, -1), (1, -1), (1, 0), (1, 1), (0, 1), (-1, 1)]

  function Dihedral(c: (int, int), operation: nat): (int, int)
    requires operation < 8
  {
    var (x, y) := c;
    [(x, y), (-y, x), (-x, -y), (y, -x), (-x, y), (x, -y), (y, x), (-y, -x)][operation]
  }

  function Abs(x: int): int { if x < 0 then -x else x }

  function RingSwap(c: (int, int)): (int, int) {
    var (x, y) := c;
    var radius := if Abs(x) > Abs(y) then Abs(x) else Abs(y);
    var swapped := 4 - radius;
    (if x == 0 then 0 else if x > 0 then swapped else -swapped,
     if y == 0 then 0 else if y > 0 then swapped else -swapped)
  }

  /** INDEX_BY_COORDINATE: the first k labels are tried. */
  function IndexUpTo(c: (int, int), k: nat): nat
    requires k <= 24
  {
    if k == 0 then 24 else if COORDINATES[k - 1] == c then k - 1 else IndexUpTo(c, k - 1)
  }

  // ---------------------------------------------------------------- directions

  /** The unit step of an angle. */
  function Direction(angle: nat): (int, int)
    requires angle < 8
  {
    [(-1, 0), (-1, -1), (0, -1), (1, -1), (1, 0), (1, 1), (0, 1), (-1, 1)][angle]
  }

  function Scaled(radius: int, d: (int, int)): (int, int) {
    if radius == 3 then (d.0 + d.0 + d.0, d.1 + d.1 + d.1) else if radius == 2 then (d.0 + d.0, d.1 + d.1) else d
  }

  lemma CoordinateIs(x: nat)
    requires x < 24
    ensures Ring(x) < 3 && Angle(x) < 8 && COORDINATES[x] == Scaled(3 - Ring(x), Direction(Angle(x)))
  {}

  lemma RingSwapIs(ring: nat, angle: nat)
    requires ring < 3 && angle < 8
    ensures RingSwap(Scaled(3 - ring, Direction(angle))) == Scaled(3 - (2 - ring), Direction(angle))
  {}

  /** The motion of the k-th symmetry of the scripts. */
  function MotionAt(k: nat): Motion
    requires k < 16
  {
    Motion(k >= 8, k % 8 >= 4, [0, 2, 4, 6, 4, 0, 2, 6][k % 8])
  }

  lemma DihedralIs(operation: nat, ring: nat, angle: nat)
    requires operation < 8 && ring < 3 && angle < 8
    ensures Dihedral(Scaled(3 - ring, Direction(angle)), operation)
         == Scaled(3 - ring, Direction(Turned(operation >= 4, [0, 2, 4, 6, 4, 0, 2, 6][operation], angle)))
  {}

  lemma DirectionDiffers(r: nat, a: nat, s: nat, b: nat)
    requires r < 3 && a < 8 && s < 3 && b < 8
    ensures Scaled(3 - r, Direction(a)) == Scaled(3 - s, Direction(b)) ==> r == s && a == b
  {}

  lemma CoordinatesDiffer(x: nat, y: nat)
    requires x < 24 && y < 24
    ensures COORDINATES[x] == COORDINATES[y] ==> x == y
  {
    CoordinateIs(x);
    CoordinateIs(y);
    DirectionDiffers(Ring(x), Angle(x), Ring(y), Angle(y));
    hide Direction, Scaled;
  }

  lemma {:induction false} IndexFinds(y: nat, k: nat)
    requires y < k <= 24
    ensures IndexUpTo(COORDINATES[y], k) == y
  {
    if k - 1 != y {
      CoordinatesDiffer(k - 1, y);
      IndexFinds(y, k - 1);
    }
  }

  /** Where the k-th symmetry takes point x, by coordinates. */
  function Target(k: nat, x: nat): nat
    requires k < 16 && x < 24
  {
    var c := if k >= 8 then RingSwap(COORDINATES[x]) else COORDINATES[x];
    IndexUpTo(Dihedral(c, k % 8), 24)
  }

  lemma TargetIs(k: nat, x: nat)
    requires k < 16 && x < 24
    ensures MotionAt(k).turn < 8 && Target(k, x) == Move(MotionAt(k), x)
  {
    assert EvenTurn(MotionAt(k));
    hide Ring, Angle, Direction, Scaled, RingSwap, Dihedral, Move, Turned, IndexUpTo;
    CoordinateIs(x);
    var m := MotionAt(k);
    var ring := if m.swap then 2 - Ring(x) else Ring(x);
    if m.swap { RingSwapIs(Ring(x), Angle(x)); }
    DihedralIs(k % 8, ring, Angle(x));
    MoveParts(m, x);
    var y := Move(m, x);
    CoordinateIs(y);
    IndexFinds(y, 24);
  }

  /** The engine's number of the k-th symmetry, and back. */
  function EngineOp(k: nat): (op: nat)
    requires k < 16
    ensures op < 16
  {
    assert EvenTurn(MotionAt(k));
    OpOf(MotionAt(k))
  }

  function ScriptOp(op: nat): (k: nat)
    requires op < 16
    ensures k < 16
  {
    if op == 15 then 0 else op + 1
  }

  lemma OpsMatch(k: nat)
    requires k < 16
    ensures MotionOf(EngineOp(k)) == MotionAt(k)
  {}

  // ---------------------------------------------------------------- the permutations

  /** SYMMETRIES. */
  function Symmetries(): (perms: seq<seq<nat>>)
    ensures |perms| == 16 && forall k: nat :: k < 16 ==> perms[k] == MAPS[EngineOp(k)]
  {
    seq(16, k requires 0 <= k < 16 => MAPS[EngineOp(k)])
  }

  lemma RowIs(k: nat, row: seq<nat>)
    requires k < 16 && |row| == 24 && forall x: nat :: x < 24 ==> row[x] == Target(k, x)
    ensures row == MAPS[EngineOp(k)]
  {
    OpsMatch(k);
    RowIsMotion(EngineOp(k));
    hide Target, Move, EngineOp, MotionOf, MotionAt;
    forall x: nat | x < 24 ensures row[x] == MAPS[EngineOp(k)][x] { TargetIs(k, x); }
  }

  /** _symmetry_permutations: coordinates are swapped, turned and looked up. */
  method SymmetryPermutations() returns (permutations: seq<seq<nat>>)
    ensures permutations == Symmetries()
  {
    hide RingSwap, Dihedral, IndexUpTo, EngineOp;
    permutations := [];
    for s := 0 to 2
      invariant |permutations| == 8 * s && forall k: nat :: k < 8 * s ==> permutations[k] == MAPS[EngineOp(k)]
    {
      for operation := 0 to 8
        invariant |permutations| == 8 * s + operation
        invariant forall k: nat :: k < 8 * s + operation ==> permutations[k] == MAPS[EngineOp(k)]
      {
        var transformed: seq<nat> := [];
        for i := 0 to 24
          invariant |transformed| == i && forall x: nat :: x < i ==> transformed[x] == Target(8 * s + operation, x)
        {
          var c := COORDINATES[i];
          if s == 1 {
            c := RingSwap(c);
          }
          transformed := transformed + [IndexUpTo(Dihedral(c, operation), 24)];
        }
        RowIs(8 * s + operation, transformed);
        permutations := permutations + [transformed];
      }
    }
  }

  /** The scripts' table as a group. */
  function Scripted(): Group {
    Group(24, Symmetries(), Inverses(), 0)
  }

  function Inverses(): (inv: seq<nat>)
    ensures |inv| == 16 && forall k: nat :: k < 16 ==> inv[k] == ScriptOp(INVERSE_OPS[EngineOp(k)])
  {
    seq(16, k requires 0 <= k < 16 => ScriptOp(INVERSE_OPS[EngineOp(k)]))
  }

  lemma OpsInvert(k: nat, op: nat)
    requires k < 16 && op < 16
    ensures ScriptOp(EngineOp(k)) == k && EngineOp(ScriptOp(op)) == op
  {
    OpNumber(k);
    OpNumber(ScriptOp(op));
    hide EngineOp;
  }

  lemma OpNumber(k: nat)
    requires k < 16
    ensures EngineOp(k) == if k == 0 then 15 else k - 1
  {}

  lemma ScriptedParts()
    ensures Scripted().n == 24 && |Scripted().ops| == 16 && |Scripted().inv| == 16 && Scripted().id == 0
    ensures BOARD.n == 24 && |BOARD.ops| == 16 && |BOARD.inv| == 16
    ensures forall k: nat :: k < 16 ==> Scripted().ops[k] == BOARD.ops[EngineOp(k)]
    ensures forall k: nat :: k < 16 ==> Scripted().inv[k] == ScriptOp(BOARD.inv[EngineOp(k)])
  {
    hide EngineOp, ScriptOp;
  }

  /** The sixteen permutations are pairwise different. */
  lemma SymmetriesDiffer(i: nat, j: nat)
    requires i < 16 && j < 16 && i != j
    ensures Symmetries()[i] != Symmetries()[j]
  {
    OpsInvert(i, 0);
    OpsInvert(j, 0);
    hide EngineOp, ScriptOp;
    RowsDiffer(EngineOp(i), EngineOp(j));
  }

  /** The coordinate symmetries are the engine's sixteen operations, each once, and so a group. */
  lemma ScriptedIsGroup()
    ensures Scripted().Valid() && |Scripted().ops| == 16
    ensures forall i: nat, j: nat :: i < j < 16 ==> Scripted().ops[i] != Scripted().ops[j]
    ensures forall k: nat :: k < 16 ==> EngineOp(k) < 16 && Scripted().ops[k] == MAPS[EngineOp(k)]
    ensures forall op: nat :: op < 16 ==> EngineOp(ScriptOp(op)) == op
  {
    BoardIsGroup();
    ScriptedParts();
    forall i: nat, j: nat | i < j < 16 ensures Scripted().ops[i] != Scripted().ops[j] { SymmetriesDiffer(i, j); }
    forall k: nat | k < 16 ensures ScriptOp(EngineOp(k)) == k && EngineOp(ScriptOp(k)) == k { OpsInvert(k, k); }
    var g := Scripted();
    assert EngineOp(0) == 15;
    hide EngineOp, ScriptOp, Scripted, Group.Closed, Group.Composes;
    assert BOARD.id == 15;
    forall i: nat, j: nat | i < 16 && j < 16 ensures g.Closed(i, j) { ClosedScript(i, j); }
  }

  lemma ClosedScript(i: nat, j: nat)
    requires i < 16 && j < 16
    ensures Scripted().Closed(i, j)
  {
    ScriptedParts();
    BoardIsGroup();
    hide EngineOp, ScriptOp, Scripted, Group.Valid;
    var k := Mul(BOARD, EngineOp(i), EngineOp(j));
    OpsInvert(0, k);
    assert Scripted().Composes(ScriptOp(k), i, j);
  }
}
