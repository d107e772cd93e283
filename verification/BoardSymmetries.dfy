/** The sixteen symmetries of the mill board: the table of point maps, the shifting
    functions of the C++ engine, and the proof that they form a group with the identity last. */
module BoardSymmetries {
  import opened Bits
  import opened Collapse
  import opened Symmetry

  // The tables of 24 points are written ring by ring: in each row the three rings (points
  // 0..7, 8..15, 16..23) repeat one pattern of eight angles, and the eight swapping
  // operations exchange the first and the last ring.
  const ROTATE90: seq<nat> := [2, 3, 4, 5, 6, 7, 0, 1]
  const ROTATE180: seq<nat> := [4, 5, 6, 7, 0, 1, 2, 3]
  const ROTATE270: seq<nat> := [6, 7, 0, 1, 2, 3, 4, 5]
  const MIRROR_VERTICAL: seq<nat> := [4, 3, 2, 1, 0, 7, 6, 5]
  const MIRROR_HORIZONTAL: seq<nat> := [0, 7, 6, 5, 4, 3, 2, 1]
  const MIRROR_BACKSLASH: seq<nat> := [2, 1, 0, 7, 6, 5, 4, 3]
  const MIRROR_SLASH: seq<nat> := [6, 5, 4, 3, 2, 1, 0, 7]
  const STAND_STILL: seq<nat> := [0, 1, 2, 3, 4, 5, 6, 7]

  function OnRing(pattern: seq<nat>, ring: nat): seq<nat> {
    seq(|pattern|, i requires 0 <= i < |pattern| => 8 * ring + pattern[i])
  }

  function Rings(pattern: seq<nat>, swap: bool): seq<nat> {
    if swap then OnRing(pattern, 2) + OnRing(pattern, 1) + OnRing(pattern, 0)
    else OnRing(pattern, 0) + OnRing(pattern, 1) + OnRing(pattern, 2)
  }

  /** The pattern of operation op: rotations, mirrors, then the same after a swap of the
      rings (which starts with the swap alone), and the identity last. */
  const PATTERNS: seq<seq<nat>> := [
    ROTATE90, ROTATE180, ROTATE270, MIRROR_VERTICAL, MIRROR_HORIZONTAL, MIRROR_BACKSLASH, MIRROR_SLASH,
    STAND_STILL, ROTATE90, ROTATE180, ROTATE270, MIRROR_VERTICAL, MIRROR_HORIZONTAL, MIRROR_BACKSLASH, MIRROR_SLASH,
    STAND_STILL]

  function Map(op: nat): seq<nat>
    requires op < 16
  {
    Rings(PATTERNS[op], 7 <= op <= 14)
  }

  function AllMaps(): (maps: seq<seq<nat>>)
    ensures |maps| == 16 && forall op: nat :: op < 16 ==> maps[op] == Map(op)
  {
    seq(16, op requires 0 <= op < 16 => Map(op))
  }

  const MAPS: seq<seq<nat>> := AllMaps()

  /** The table inv. */
  const INVERSE_OPS: seq<nat> := [2, 1, 0, 3, 4, 5, 6, 7, 10, 9, 8, 11, 12, 13, 14, 15]

  const BOARD: Group := Group(24, MAPS, INVERSE_OPS, 15)

  // ---------------------------------------------------------------- the closed form

  /** An operation: exchange the outer and inner rings or not, then walk each ring
      backwards or not, then turn it by an even number of points. */
  datatype Motion = Motion(swap: bool, flip: bool, turn: nat)

  const TURNS: seq<nat> := [2, 4, 6, 4, 0, 2, 6, 0, 2, 4, 6, 4, 0, 2, 6, 0]

  function MotionOf(op: nat): Motion
    requires op < 16
  {
    Motion(7 <= op <= 14, 3 <= op <= 6 || 11 <= op <= 14, TURNS[op])
  }

  /** The new angle, modulo eight. */
  function Turned(flip: bool, turn: nat, angle: nat): (t: nat)
    requires turn < 8 && angle < 8
    ensures t < 8
  {
    if flip then (if angle <= turn then turn - angle else turn + 8 - angle)
    else (if turn + angle < 8 then turn + angle else turn + angle - 8)
  }

  function Ring(x: nat): nat { if x < 8 then 0 else if x < 16 then 1 else 2 }

  function Angle(x: nat): nat { x - 8 * Ring(x) }

  /** Where a motion takes point x = 8 * ring + angle. */
  function Move(m: Motion, x: nat): nat
    requires m.turn < 8 && x < 24
  {
    8 * (if m.swap then 2 - Ring(x) else Ring(x)) + Turned(m.flip, m.turn, Angle(x))
  }

  /** Every row of the table is its motion. */
  ghost predicate IsMotion(row: seq<nat>, m: Motion)
    requires m.turn < 8
  {
    |row| == 24 && forall x: nat :: x < 24 ==> row[x] == Move(m, x)
  }

  lemma RingsAreMotion(pattern: seq<nat>, m: Motion)
    requires m.turn < 8 && |pattern| == 8
    requires forall a: nat :: a < 8 ==> pattern[a] == Turned(m.flip, m.turn, a)
    ensures IsMotion(Rings(pattern, m.swap), m)
  {}

  lemma PatternIsTurn(op: nat)
    requires op < 16
    ensures |PATTERNS[op]| == 8 && MotionOf(op).turn < 8
    ensures forall a: nat :: a < 8 ==> PATTERNS[op][a] == Turned(MotionOf(op).flip, MotionOf(op).turn, a)
  {}

  lemma RowIsMotion(op: nat)
    requires op < 16
    ensures MotionOf(op).turn < 8
    ensures IsMotion(MAPS[op], MotionOf(op))
  {
    PatternIsTurn(op);
    RingsAreMotion(PATTERNS[op], MotionOf(op));
  }

  // ---------------------------------------------------------------- the group laws

  ghost predicate EvenTurn(m: Motion) {
    m.turn < 8 && m.turn % 2 == 0
  }

  /** Motion m after motion l. */
  function After(m: Motion, l: Motion): Motion
    requires EvenTurn(m) && EvenTurn(l)
  {
    Motion(m.swap != l.swap, m.flip != l.flip, Turned(m.flip, m.turn, l.turn))
  }

  lemma AfterIsEven(m: Motion, l: Motion)
    requires EvenTurn(m) && EvenTurn(l)
    ensures EvenTurn(After(m, l))
  {}

  lemma MoveParts(m: Motion, x: nat)
    requires m.turn < 8 && x < 24
    ensures Move(m, x) < 24 && Ring(x) < 3 && Angle(x) < 8
    ensures Ring(Move(m, x)) == if m.swap then 2 - Ring(x) else Ring(x)
    ensures Angle(Move(m, x)) == Turned(m.flip, m.turn, Angle(x))
  {
    RingAngle(if m.swap then 2 - Ring(x) else Ring(x), Turned(m.flip, m.turn, Angle(x)));
    hide Turned;
  }

  lemma MoveAfter(m: Motion, l: Motion, x: nat)
    requires EvenTurn(m) && EvenTurn(l) && x < 24
    ensures Move(l, x) < 24 && EvenTurn(After(m, l))
    ensures Move(m, Move(l, x)) == Move(After(m, l), x)
  {
    AfterIsEven(m, l);
    MoveParts(l, x);
    TurnedTwice(m, l, Angle(x));
    MoveUnfold(m, Move(l, x));
    MoveUnfold(After(m, l), x);
    hide Turned, Ring, Angle, Move;
  }

  lemma MoveUnfold(m: Motion, x: nat)
    requires m.turn < 8 && x < 24
    ensures Angle(x) < 8
    ensures Move(m, x) == 8 * (if m.swap then 2 - Ring(x) else Ring(x)) + Turned(m.flip, m.turn, Angle(x))
  {
    hide Turned;
  }

  lemma RingAngle(ring: nat, angle: nat)
    requires ring < 3 && angle < 8
    ensures Ring(8 * ring + angle) == ring
  {}

  lemma TurnedTwice(m: Motion, l: Motion, angle: nat)
    requires EvenTurn(m) && EvenTurn(l) && angle < 8
    ensures Turned(m.flip, m.turn, Turned(l.flip, l.turn, angle))
            == Turned(m.flip != l.flip, Turned(m.flip, m.turn, l.turn), angle)
  {}

  /** The operation that is a given motion. */
  function OpOf(m: Motion): (op: nat)
    requires EvenTurn(m)
    ensures op < 16 && MotionOf(op) == m
  {
    var base := if m.flip then (if m.turn == 4 then 3 else if m.turn == 0 then 4 else if m.turn == 2 then 5 else 6)
                else if m.turn == 0 then (if m.swap then -1 else 15) else m.turn / 2 - 1;
    if m.swap then base + 8 else base
  }

  lemma OpMotion(op: nat)
    requires op < 16
    ensures EvenTurn(MotionOf(op))
    ensures INVERSE_OPS[op] < 16 && INVERSE_OPS[INVERSE_OPS[op]] == op
    ensures After(MotionOf(INVERSE_OPS[op]), MotionOf(op)) == Motion(false, false, 0)
  {}

  lemma InverseRow(op: nat)
    requires op < 16
    ensures INVERSE_OPS[op] < 16
    ensures MutuallyInverse(MAPS[op], MAPS[INVERSE_OPS[op]], 24)
  {
    OpMotion(op);
    var inv := INVERSE_OPS[op];
    OpMotion(inv);
    RowIsMotion(op);
    RowIsMotion(inv);
    hide MotionOf, Turned, EvenTurn;
    forall x: nat | x < 24 ensures MAPS[op][x] < 24 && MAPS[inv][MAPS[op][x]] == x {
      MoveAfter(MotionOf(inv), MotionOf(op), x);
      StandStill(x);
    }
    forall x: nat | x < 24 ensures MAPS[inv][x] < 24 && MAPS[op][MAPS[inv][x]] == x {
      MoveAfter(MotionOf(op), MotionOf(inv), x);
      StandStill(x);
    }
  }

  lemma OpOfMotion(op: nat)
    requires op < 16
    ensures EvenTurn(MotionOf(op)) && OpOf(MotionOf(op)) == op
  {}

  /** A motion is known from where it takes points 0 and 1. */
  lemma MotionsDiffer(m: Motion, l: Motion)
    requires EvenTurn(m) && EvenTurn(l) && Move(m, 0) == Move(l, 0) && Move(m, 1) == Move(l, 1)
    ensures m == l
  {}

  /** No operation is listed twice. */
  lemma RowsDiffer(i: nat, j: nat)
    requires i < 16 && j < 16 && i != j
    ensures MAPS[i] != MAPS[j]
  {
    RowIsMotion(i);
    RowIsMotion(j);
    OpOfMotion(i);
    OpOfMotion(j);
    hide MotionOf, OpOf, Move, EvenTurn;
    if MAPS[i] == MAPS[j] {
      assert Move(MotionOf(i), 0) == MAPS[i][0] && Move(MotionOf(i), 1) == MAPS[i][1];
      MotionsDiffer(MotionOf(i), MotionOf(j));
    }
  }

  lemma StandStill(x: nat)
    requires x < 24
    ensures Move(Motion(false, false, 0), x) == x
  {}

  /** Operations compose as their motions do. */
  lemma ComposesAsMotions(k: nat, i: nat, j: nat)
    requires i < 16 && j < 16 && k < 16
    requires EvenTurn(MotionOf(i)) && EvenTurn(MotionOf(j)) && MotionOf(k) == After(MotionOf(i), MotionOf(j))
    ensures BOARD.Composes(k, i, j)
  {
    RowIsMotion(i);
    RowIsMotion(j);
    RowIsMotion(k);
    hide MotionOf, Turned, EvenTurn, Move;
    forall x: nat | x < 24 ensures MAPS[j][x] < 24 && MAPS[k][x] == MAPS[i][MAPS[j][x]] {
      MoveAfter(MotionOf(i), MotionOf(j), x);
    }
  }

  lemma ClosedUnder(i: nat, j: nat)
    requires i < 16 && j < 16
    ensures BOARD.Closed(i, j)
  {
    OpMotion(i);
    OpMotion(j);
    assert EvenTurn(After(MotionOf(i), MotionOf(j))) by { MoveAfter(MotionOf(i), MotionOf(j), 0); }
    ComposesAsMotions(OpOf(After(MotionOf(i), MotionOf(j))), i, j);
  }

  /** The sixteen operations are a group, and the identity is the last of them. */
  lemma BoardIsGroup()
    ensures BOARD.Valid() && BOARD.IdentityLast() && |BOARD.ops| == 16
  {
    forall i: nat | i < 16
      ensures INVERSE_OPS[i] < 16 && INVERSE_OPS[INVERSE_OPS[i]] == i
      ensures MutuallyInverse(MAPS[i], MAPS[INVERSE_OPS[i]], 24)
    {
      OpMotion(i);
      InverseRow(i);
    }
    forall i: nat, j: nat | i < 16 && j < 16 ensures BOARD.Closed(i, j) { ClosedUnder(i, j); }
    RowIsMotion(15);
    forall x: nat | x < 24 ensures MAPS[15][x] == x { StandStill(x); }
  }

  // ---------------------------------------------------------------- the shifting functions

  /** The first k lines `b |= (((1 << i) & a) >> i) << target` of one of the C++ functions. */
  function ShiftLines(targets: seq<nat>, a: nat, k: nat): nat
    requires k <= |targets|
  {
    if k == 0 then 0
    else Or(ShiftLines(targets, a, k - 1), Shl(Shr(And(Pow2(k - 1), a), k - 1), targets[k - 1]))
  }

  lemma ShiftedBit(a: nat, i: nat)
    ensures Shr(And(Pow2(i), a), i) == if Bit(a, i) then 1 else 0
  {
    var v: nat := if Bit(a, i) then 1 else 0;
    forall b: nat ensures Bit(Shr(And(Pow2(i), a), i), b) == Bit(v, b) {
      ShrBit(And(Pow2(i), a), i, b);
      AndBit(Pow2(i), a, b + i);
      Pow2Bit(i, b + i);
      assert Pow2(0) == 1;
      Pow2Bit(0, b);
      ZeroBit(b);
    }
    BitsDetermine(Shr(And(Pow2(i), a), i), v);
  }

  lemma {:induction false} ShiftLinesTransform(targets: seq<nat>, a: nat, k: nat)
    requires k <= |targets|
    ensures ShiftLines(targets, a, k) == TransformUpTo(targets, a, k)
    decreases k
  {
    if k > 0 {
      ShiftLinesTransform(targets, a, k - 1);
      ShiftedBit(a, k - 1);
      ShlOne(targets[k - 1]);
      ShlZero(targets[k - 1]);
      assert Or(TransformUpTo(targets, a, k - 1), 0) == TransformUpTo(targets, a, k - 1);
    }
  }

  /** One of the seven C++ functions written as 24 lines. */
  function Lines(pattern: seq<nat>, swap: bool, a: nat): nat {
    ShiftLines(Rings(pattern, swap), a, |Rings(pattern, swap)|)
  }

  function Rotate90(a: nat): nat { Lines(ROTATE90, false, a) }
  function Rotate180(a: nat): nat { Rotate90(Rotate90(a)) }
  function Rotate270(a: nat): nat { Rotate180(Rotate90(a)) }
  function Swap(a: nat): nat { Lines(STAND_STILL, true, a) }

  /** The table slow. */
  function Slow(op: nat, a: nat): nat
    requires op < 16
  {
    match op
    case 0 => Rotate90(a)
    case 1 => Rotate180(a)
    case 2 => Rotate270(a)
    case 3 => Lines(MIRROR_VERTICAL, false, a)
    case 4 => Lines(MIRROR_HORIZONTAL, false, a)
    case 5 => Lines(MIRROR_BACKSLASH, false, a)
    case 6 => Lines(MIRROR_SLASH, false, a)
    case 7 => Swap(a)
    case 8 => Swap(Rotate90(a))
    case 9 => Swap(Rotate180(a))
    case 10 => Swap(Rotate270(a))
    case 11 => Swap(Lines(MIRROR_VERTICAL, false, a))
    case 12 => Swap(Lines(MIRROR_HORIZONTAL, false, a))
    case 13 => Swap(Lines(MIRROR_BACKSLASH, false, a))
    case 14 => Swap(Lines(MIRROR_SLASH, false, a))
    case _ => a
  }

  lemma LinesAreT(op: nat, a: nat)
    requires op < 16
    ensures Lines(PATTERNS[op], 7 <= op <= 14, a) == BOARD.T(op, a)
  {
    ShiftLinesTransform(MAPS[op], a, |MAPS[op]|);
  }

  lemma TwoSteps(k: nat, i: nat, j: nat, a: nat)
    requires i < 16 && j < 16 && k < 16
    requires EvenTurn(MotionOf(i)) && EvenTurn(MotionOf(j)) && MotionOf(k) == After(MotionOf(i), MotionOf(j))
    ensures BOARD.T(i, BOARD.T(j, a)) == BOARD.T(k, a)
  {
    BoardIsGroup();
    ComposesAsMotions(k, i, j);
    TCompose(BOARD, k, i, j, a);
  }

  lemma RotationsAreT(a: nat)
    ensures Rotate90(a) == BOARD.T(0, a) && Rotate180(a) == BOARD.T(1, a) && Rotate270(a) == BOARD.T(2, a)
  {
    hide Group.T, Lines;
    LinesAreT(0, a);
    LinesAreT(0, BOARD.T(0, a));
    LinesAreT(0, BOARD.T(0, BOARD.T(0, a)));
    TwoSteps(1, 0, 0, a);
    TwoSteps(1, 0, 0, BOARD.T(0, a));
    TwoSteps(2, 1, 0, a);
  }

  /** The shifting functions, composed as the C++ source composes them, are the sixteen
      operations of the table. */
  lemma SlowIsT(op: nat, a: nat)
    requires op < 16 && a < Pow2(24)
    ensures Slow(op, a) == BOARD.T(op, a)
  {
    if op == 15 {
      BoardIsGroup();
      TIdentity(BOARD, a);
    } else if op < 7 {
      PlainIsT(op, a);
    } else if op == 7 {
      LinesAreT(7, a);
    } else {
      hide *;
      SlowSwap(op, a);
      SwappedIsT(op, a);
    }
  }

  lemma SlowSwap(op: nat, a: nat)
    requires 8 <= op < 15
    ensures Slow(op, a) == Swap(Slow(op - 8, a))
  {
    hide Lines;
  }

  lemma SwappedIsT(op: nat, a: nat)
    requires 8 <= op < 15
    ensures Swap(Slow(op - 8, a)) == BOARD.T(op, a)
  {
    hide Lines, Slow, Group.T;
    PlainIsT(op - 8, a);
    LinesAreT(7, BOARD.T(op - 8, a));
    TwoSteps(op, 7, op - 8, a);
  }

  lemma PlainIsT(op: nat, a: nat)
    requires op < 7
    ensures Slow(op, a) == BOARD.T(op, a)
  {
    hide Group.T, Lines;
    RotationsAreT(a);
    LinesAreT(op, a);
  }

  // ---------------------------------------------------------------- the 8-bit tables

  /** Byte number k of a word, put back in its place. */
  function ByteAt(a: nat, k: nat): nat { Shl(Low(Shr(a, 8 * k), 8), 8 * k) }

  lemma ByteAtBit(a: nat, k: nat, i: nat)
    ensures Bit(ByteAt(a, k), i) <==> 8 * k <= i < 8 * k + 8 && Bit(a, i)
  {
    ShlBit(Low(Shr(a, 8 * k), 8), 8 * k, i);
    if i >= 8 * k {
      LowBit(Shr(a, 8 * k), 8, i - 8 * k);
      ShrBit(a, 8 * k, i - 8 * k);
    }
  }

  lemma ThreeBytes(a: nat)
    ensures Or(Or(ByteAt(a, 0), ByteAt(a, 1)), ByteAt(a, 2)) == Low(a, 24)
  {
    forall i: nat ensures Bit(Or(Or(ByteAt(a, 0), ByteAt(a, 1)), ByteAt(a, 2)), i) == Bit(Low(a, 24), i) {
      hide ByteAt, Or, Low, Bit;
      OrBit(Or(ByteAt(a, 0), ByteAt(a, 1)), ByteAt(a, 2), i);
      OrBit(ByteAt(a, 0), ByteAt(a, 1), i);
      ByteAtBit(a, 0, i);
      ByteAtBit(a, 1, i);
      ByteAtBit(a, 2, i);
      LowBit(a, 24, i);
    }
    BitsDetermine(Or(Or(ByteAt(a, 0), ByteAt(a, 1)), ByteAt(a, 2)), Low(a, 24));
  }

  lemma TOr(op: nat, x: nat, y: nat)
    requires op < 16
    ensures BOARD.T(op, Or(x, y)) == Or(BOARD.T(op, x), BOARD.T(op, y))
  {
    BoardIsGroup();
    forall b: nat ensures Bit(BOARD.T(op, Or(x, y)), b) == Bit(Or(BOARD.T(op, x), BOARD.T(op, y)), b) {
      hide Group.T, Or, Group.Valid;
      TBit(BOARD, op, Or(x, y), b);
      TBit(BOARD, op, x, b);
      TBit(BOARD, op, y, b);
      OrBit(BOARD.T(op, x), BOARD.T(op, y), b);
      if b < 24 { OrBit(x, y, BOARD.ops[BOARD.inv[op]][b]); }
    }
    BitsDetermine(BOARD.T(op, Or(x, y)), Or(BOARD.T(op, x), BOARD.T(op, y)));
  }

  /** table1, table2, table3. */
  class SymmetryTables {
    const table1: array2<nat>
    const table2: array2<nat>
    const table3: array2<nat>

    ghost predicate Valid()
      reads this, table1, table2, table3
    {
      && Filled(table1, 0, 256) && Filled(table2, 1, 256) && Filled(table3, 2, 256)
    }

    /** Entries of the first k patterns of table number byte + 1. */
    static ghost predicate Filled(table: array2<nat>, byte: nat, k: nat)
      requires k <= 256
      reads table
    {
      && table.Length0 == 16 && table.Length1 == 256
      && forall i: nat, pat: nat :: i < 16 && pat < k ==> table[i, pat] == Slow(i, Shl(pat, 8 * byte))
    }

    /** init_symmetry_lookup_tables. */
    constructor ()
      ensures Valid() && fresh(table1) && fresh(table2) && fresh(table3)
    {
      table1 := new nat[16, 256];
      table2 := new nat[16, 256];
      table3 := new nat[16, 256];
      new;
      hide Slow, Shl;
      for pat := 0 to 256
        invariant Filled(table1, 0, pat) && Filled(table2, 1, pat) && Filled(table3, 2, pat)
        invariant table1 != table2 && table2 != table3 && table1 != table3
      {
        FillPattern(table1, 0, pat);
        FillPattern(table2, 1, pat);
        FillPattern(table3, 2, pat);
      }
    }

    static method FillPattern(table: array2<nat>, byte: nat, pat: nat)
      requires pat < 256 && Filled(table, byte, pat)
      modifies table
      ensures Filled(table, byte, pat + 1)
    {
      hide Slow, Shl;
      for i := 0 to 16
        invariant Filled(table, byte, pat)
        invariant forall j: nat :: j < i ==> table[j, pat] == Slow(j, Shl(pat, 8 * byte))
      {
        table[i, pat] := Slow(i, Shl(pat, 8 * byte));
      }
    }

    /** sym24_transform: three table reads. */
    function Sym24(op: nat, a: nat): nat
      requires op < 16 && Valid()
      reads this, table1, table2, table3
    {
      LowBound(a, 8);
      LowBound(Shr(a, 8), 8);
      LowBound(Shr(a, 16), 8);
      Or(Or(table1[op, Low(a, 8)], table2[op, Low(Shr(a, 8), 8)]), table3[op, Low(Shr(a, 16), 8)])
    }

    /** Three byte lookups compute the permutation of the whole word. */
    lemma Sym24IsT(op: nat, a: nat)
      requires op < 16 && Valid()
      ensures Sym24(op, a) == BOARD.T(op, Low(a, 24))
    {
      LowBound(a, 8);
      LowBound(Shr(a, 8), 8);
      LowBound(Shr(a, 16), 8);
      ByteIsT(op, a, 0);
      ByteIsT(op, a, 1);
      ByteIsT(op, a, 2);
      ThreeBytes(a);
      hide Slow, Shl, Group.T, Or, Low;
      TOr(op, Or(ByteAt(a, 0), ByteAt(a, 1)), ByteAt(a, 2));
      TOr(op, ByteAt(a, 0), ByteAt(a, 1));
    }

    /** sym48_transform. */
    function Sym48(op: nat, a: nat): nat
      requires op < 16 && Valid()
      reads this, table1, table2, table3
    {
      Or(Sym24(op, Low(a, 24)), Shl(Sym24(op, Shr(a, 24)), 24))
    }

    lemma Sym48IsT48(op: nat, a: nat)
      requires op < 16 && Valid() && Black(24, a) < Pow2(24)
      ensures Sym48(op, a) == BOARD.T48(op, a)
    {
      hide Slow, Shl, Group.T, Or, Low, Sym24, Shr, Group.Valid, SymmetryTables.Valid, Pow2;
      LowBound(a, 24);
      Sym24IsT(op, Low(a, 24));
      Sym24IsT(op, Shr(a, 24));
      LowOfWord(Low(a, 24), 24);
      LowOfWord(Shr(a, 24), 24);
      BoardIsGroup();
      TFacts(BOARD, op, Low(a, 24));
      OrIsSum(BOARD.T(op, Shr(a, 24)), BOARD.T(op, Low(a, 24)), 24);
    }
  }

  lemma ByteIsT(op: nat, a: nat, k: nat)
    requires op < 16 && k < 3
    ensures Slow(op, ByteAt(a, k)) == BOARD.T(op, ByteAt(a, k))
  {
    forall i: nat | 24 <= i ensures !Bit(ByteAt(a, k), i) { ByteAtBit(a, k, i); }
    NoBitsAbove(ByteAt(a, k), 24);
    SlowIsT(op, ByteAt(a, k));
  }
}
