/** The standard and Lasker board: its edges, its sixteen lines, and how the sixteen
    symmetries carry them over. */
module MillRules {
  import opened BoardSymmetries

  type Point = x: int | 0 <= x < 24

  /** One direction of the edges init_rules fills in: along a ring, and outwards-in along
      the four spokes. */
  predicate Edge(i: nat, j: nat) {
    || (i < 24 && i % 8 != 7 && j == i + 1)
    || (i < 24 && i % 8 == 7 && j == i - 7)
    || (i < 16 && i % 2 == 0 && j == i + 8)
  }

  /** boardGraph, closed under exchanging the ends. */
  predicate Adjacent(i: nat, j: nat) {
    Edge(i, j) || Edge(j, i)
  }

  /** millPos: four lines on each ring, then the four spokes. */
  function Line(j: nat): (l: (nat, nat, nat))
    requires j < 16
    ensures l.0 < 24 && l.1 < 24 && l.2 < 24
  {
    if j < 12 then
      (8 * (j / 4) + 2 * (j % 4) + 1, 8 * (j / 4) + (2 * (j % 4) + 2) % 8, 8 * (j / 4) + (2 * (j % 4) + 3) % 8)
    else (2 * (j - 12), 2 * (j - 12) + 8, 2 * (j - 12) + 16)
  }

  predicate OnLine(x: nat, j: nat)
    requires j < 16
  {
    x == Line(j).0 || x == Line(j).1 || x == Line(j).2
  }

  // ---------------------------------------------------------------- closed forms

  /** Angles that follow each other around a ring. */
  predicate Beside(a: nat, b: nat) {
    b == a + 1 || a == b + 1 || (a == 0 && b == 7) || (a == 7 && b == 0)
  }

  lemma AdjacentByRing(x: nat, y: nat)
    requires x < 24 && y < 24
    ensures Adjacent(x, y) <==>
              || (Ring(x) == Ring(y) && Beside(Angle(x), Angle(y)))
              || (Angle(x) == Angle(y) && Angle(x) % 2 == 0 && (Ring(x) == Ring(y) + 1 || Ring(y) == Ring(x) + 1))
  {
    hide Edge;
    EdgeByRing(x, y);
    EdgeByRing(y, x);
  }

  lemma EdgeByRing(x: nat, y: nat)
    requires x < 24 && y < 24
    ensures Edge(x, y) <==>
              || (Ring(x) == Ring(y) && Angle(y) == (if Angle(x) == 7 then 0 else Angle(x) + 1))
              || (Angle(x) == Angle(y) && Angle(x) % 2 == 0 && Ring(y) == Ring(x) + 1)
    ensures Angle(x) < 8 && Angle(y) < 8 && (Angle(x) % 2 == 0 <==> x % 2 == 0)
  {
    RingParts(x);
    RingParts(y);
    hide Ring, Angle;
  }

  lemma RingParts(x: nat)
    requires x < 24
    ensures Ring(x) < 3 && Angle(x) < 8 && x == 8 * Ring(x) + Angle(x)
    ensures x % 8 == Angle(x) && x % 2 == Angle(x) % 2
  {}

  /** The angle at the middle of a ring line. */
  function Middle(j: nat): nat
    requires j < 12
  {
    if j % 4 == 3 then 0 else 2 * (j % 4) + 2
  }

  lemma OnLineByRing(x: nat, j: nat)
    requires x < 24 && j < 16
    ensures j < 12 ==> (OnLine(x, j) <==> Ring(x) == j / 4 && (Angle(x) == Middle(j) || Beside(Angle(x), Middle(j))))
    ensures j >= 12 ==> (OnLine(x, j) <==> Angle(x) == 2 * (j - 12))
  {
    hide OnLine, Ring, Angle, Beside, Middle;
    if j < 12 { OnRingLine(x, j); } else { OnSpoke(x, j); }
  }

  lemma OnRingLine(x: nat, j: nat)
    requires x < 24 && j < 12
    ensures OnLine(x, j) <==> Ring(x) == j / 4 && (Angle(x) == Middle(j) || Beside(Angle(x), Middle(j)))
  {
    hide Ring, Angle, Beside;
    RingPoints(j / 4, j % 4, x);
  }

  lemma OnSpoke(x: nat, j: nat)
    requires x < 24 && 12 <= j < 16
    ensures OnLine(x, j) <==> Angle(x) == 2 * (j - 12)
  {
    RingParts(x);
    hide Ring, Angle;
  }

  lemma RingPoints(ring: nat, t: nat, x: nat)
    requires ring < 3 && t < 4 && x < 24
    ensures var middle := if t == 3 then 0 else 2 * t + 2;
            x == 8 * ring + 2 * t + 1 || x == 8 * ring + (2 * t + 2) % 8 || x == 8 * ring + (2 * t + 3) % 8
            <==> Ring(x) == ring && (Angle(x) == middle || Beside(Angle(x), middle))
  {
    if t == 3 {
      assert (2 * t + 2) % 8 == 0 && (2 * t + 3) % 8 == 1;
    } else {
      assert (2 * t + 2) % 8 == 2 * t + 2 && (2 * t + 3) % 8 == 2 * t + 3;
    }
  }

  // ---------------------------------------------------------------- symmetry

  lemma TurnedKeeps(flip: bool, turn: nat, a: nat, b: nat)
    requires turn < 8 && a < 8 && b < 8
    ensures Turned(flip, turn, a) == Turned(flip, turn, b) <==> a == b
    ensures turn % 2 == 0 ==> Turned(flip, turn, a) % 2 == a % 2
  {}

  lemma BesideShifted(turn: nat, a: nat, b: nat)
    requires turn < 8 && a < 8 && b < 8
    ensures Beside(Turned(false, turn, a), Turned(false, turn, b)) <==> Beside(a, b)
  {}

  lemma BesideFlipped(turn: nat, a: nat, b: nat)
    requires turn < 8 && a < 8 && b < 8
    ensures Beside(Turned(true, turn, a), Turned(true, turn, b)) <==> Beside(a, b)
  {}

  lemma BesideTurned(flip: bool, turn: nat, a: nat, b: nat)
    requires turn < 8 && a < 8 && b < 8
    ensures Beside(Turned(flip, turn, a), Turned(flip, turn, b)) <==> Beside(a, b)
    ensures Turned(flip, turn, a) == Turned(flip, turn, b) <==> a == b
    ensures turn % 2 == 0 ==> Turned(flip, turn, a) % 2 == a % 2
  {
    hide Turned, Beside;
    TurnedKeeps(flip, turn, a, b);
    if flip { BesideFlipped(turn, a, b); } else { BesideShifted(turn, a, b); }
  }

  /** Where operation op takes point x. */
  function Image(op: nat, x: nat): nat
    requires op < 16 && x < 24
  {
    MAPS[op][x]
  }

  lemma ImageParts(op: nat, x: nat)
    requires op < 16 && x < 24
    ensures |MAPS[op]| == 24 && Image(op, x) < 24 && EvenTurn(MotionOf(op)) && Angle(x) < 8 && Ring(x) < 3
    ensures Ring(Image(op, x)) == if MotionOf(op).swap then 2 - Ring(x) else Ring(x)
    ensures Angle(Image(op, x)) == Turned(MotionOf(op).flip, MotionOf(op).turn, Angle(x))
  {
    RowIsMotion(op);
    OpMotion(op);
    MoveParts(MotionOf(op), x);
  }

  /** Symmetries keep the edges. */
  lemma AdjacentImage(op: nat, x: nat, y: nat)
    requires op < 16 && x < 24 && y < 24
    ensures Image(op, x) < 24 && Image(op, y) < 24
    ensures Adjacent(Image(op, x), Image(op, y)) <==> Adjacent(x, y)
  {
    hide *;
    ImageParts(op, x);
    ImageParts(op, y);
    EvenIs(MotionOf(op));
    AdjacentByRing(x, y);
    AdjacentByRing(Image(op, x), Image(op, y));
    BesideTurned(MotionOf(op).flip, MotionOf(op).turn, Angle(x), Angle(y));
  }

  lemma EvenIs(m: Motion)
    ensures EvenTurn(m) <==> m.turn < 8 && m.turn % 2 == 0
  {}

  /** The line that operation op takes line j to. */
  function LineImage(op: nat, j: nat): nat
    requires op < 16 && j < 16
  {
    EvenTurns(op);
    var m := MotionOf(op);
    if j < 12 then
      var mid := Turned(m.flip, m.turn, Middle(j));
      4 * (if m.swap then 2 - j / 4 else j / 4) + (if mid == 0 then 3 else mid / 2 - 1)
    else 12 + Turned(m.flip, m.turn, 2 * (j - 12)) / 2
  }

  lemma EvenTurns(op: nat)
    requires op < 16
    ensures MotionOf(op).turn < 8 && MotionOf(op).turn % 2 == 0
    ensures forall a: nat :: a < 8 && a % 2 == 0 ==> Turned(MotionOf(op).flip, MotionOf(op).turn, a) % 2 == 0
  {
    OpMotion(op);
    forall a: nat | a < 8 && a % 2 == 0 ensures Turned(MotionOf(op).flip, MotionOf(op).turn, a) % 2 == 0 {
      BesideTurned(MotionOf(op).flip, MotionOf(op).turn, a, a);
    }
  }

  lemma LineImageParts(op: nat, j: nat)
    requires op < 16 && j < 16
    ensures LineImage(op, j) < 16 && MotionOf(op).turn < 8
    ensures j < 12 ==> LineImage(op, j) < 12
                       && LineImage(op, j) / 4 == (if MotionOf(op).swap then 2 - j / 4 else j / 4)
                       && Middle(LineImage(op, j)) == Turned(MotionOf(op).flip, MotionOf(op).turn, Middle(j))
    ensures j >= 12 ==> LineImage(op, j) >= 12
                        && 2 * (LineImage(op, j) - 12) == Turned(MotionOf(op).flip, MotionOf(op).turn, 2 * (j - 12))
  {
    EvenTurns(op);
    TurnedBound(op, if j < 12 then Middle(j) else 2 * (j - 12));
    hide MotionOf, Turned;
    if j < 12 {
      var mid := Turned(MotionOf(op).flip, MotionOf(op).turn, Middle(j));
      LineOfMiddle(if MotionOf(op).swap then 2 - j / 4 else j / 4, mid);
    }
  }

  lemma TurnedBound(op: nat, a: nat)
    requires op < 16 && a < 8 && a % 2 == 0
    ensures MotionOf(op).turn < 8
    ensures Turned(MotionOf(op).flip, MotionOf(op).turn, a) < 8
            && Turned(MotionOf(op).flip, MotionOf(op).turn, a) % 2 == 0
  {
    EvenTurns(op);
  }

  lemma LineOfMiddle(ring: nat, mid: nat)
    requires ring < 3 && mid < 8 && mid % 2 == 0
    ensures var j := 4 * ring + (if mid == 0 then 3 else mid / 2 - 1);
            j < 12 && j / 4 == ring && Middle(j) == mid
  {}

  /** Symmetries keep the lines. */
  lemma OnLineImage(op: nat, x: nat, j: nat)
    requires op < 16 && x < 24 && j < 16
    ensures Image(op, x) < 24 && LineImage(op, j) < 16
    ensures OnLine(Image(op, x), LineImage(op, j)) <==> OnLine(x, j)
  {
    hide *;
    ImageParts(op, x);
    EvenIs(MotionOf(op));
    LineImageParts(op, j);
    OnLineByRing(x, j);
    OnLineByRing(Image(op, x), LineImage(op, j));
    MiddleBound(j);
    BesideTurned(MotionOf(op).flip, MotionOf(op).turn, Angle(x), if j < 12 then Middle(j) else 2 * (j - 12));
  }

  lemma MiddleBound(j: nat)
    requires j < 16
    ensures j < 12 ==> Middle(j) < 8
  {}
}
