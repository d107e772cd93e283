/** Play looks the same after any of the sixteen board symmetries, with or without exchanging
    the colours: this is what lets positions be indexed by orbit and by the side to move. */
module GameSymmetry {
  import opened BoardSymmetries
  import opened MillRules
  import opened Game
  import opened Turns

  /** A board symmetry, and whether the colours are exchanged as well. */
  datatype Recast = Recast(op: nat, swap: bool) {
    predicate Valid() { op < 16 }
  }

  function Inverse(c: Recast): (d: Recast)
    requires c.Valid()
    ensures d.Valid()
  {
    Recast(INVERSE_OPS[c.op], c.swap)
  }

  /** Where a point goes. */
  function To(c: Recast, x: Point): (y: Point)
    requires c.Valid()
  {
    ImageParts(c.op, x);
    Image(c.op, x)
  }

  /** What becomes of a colour; -1 stays. */
  function Hue(c: Recast, v: int): int {
    if c.swap && 0 <= v <= 1 then 1 - v else v
  }

  lemma ToInverse(c: Recast, x: Point)
    requires c.Valid()
    ensures Inverse(Inverse(c)) == c
    ensures To(Inverse(c), To(c, x)) == x && To(c, To(Inverse(c), x)) == x
  {
    OpMotion(c.op);
    InverseRow(c.op);
  }

  function ShownBoard(c: Recast, b: seq<int>): (d: seq<int>)
    requires c.Valid() && |b| == 24
    ensures |d| == 24
  {
    seq(24, y requires 0 <= y < 24 => Hue(c, b[To(Inverse(c), y)]))
  }

  function ShownPair(c: Recast, p: seq<int>): (q: seq<int>)
    requires |p| == 2
    ensures |q| == 2
  {
    if c.swap then [p[1], p[0]] else p
  }

  /** The state as seen through c. */
  function Shown(c: Recast, s: State): (u: State)
    requires c.Valid() && s.Shaped()
    ensures u.Shaped()
  {
    State(ShownBoard(c, s.board), s.phase, ShownPair(c, s.placed), ShownPair(c, s.stones), s.kle, Hue(c, s.side),
          s.moveCount, s.over, Hue(c, s.winner), s.block, s.lastIrrev)
  }

  function ShownMove(c: Recast, m: Move): Move
    requires c.Valid()
  {
    match m
    case SetPiece(to) => SetPiece(To(c, to))
    case MovePiece(from, to) => MovePiece(To(c, from), To(c, to))
    case RemovePiece(from) => RemovePiece(To(c, from))
  }

  /** Unused fields of a turn keep their default. */
  function ShownTurn(c: Recast, t: AdvancedMove): AdvancedMove
    requires c.Valid()
  {
    if t.onlyTaking then AdvancedMove(t.from, t.to, t.moveType, t.withTaking, true, To(c, t.takeHon))
    else AdvancedMove(To(c, t.from), To(c, t.to), t.moveType, t.withTaking, false,
                      if t.withTaking then To(c, t.takeHon) else t.takeHon)
  }

  // ---------------------------------------------------------------- boards

  /** c takes board b to board d. */
  ghost predicate Takes(c: Recast, b: seq<int>, d: seq<int>)
    requires c.Valid() && |b| == 24 && |d| == 24
  {
    forall x: Point :: d[To(c, x)] == Hue(c, b[x])
  }

  lemma ShownTakes(c: Recast, b: seq<int>)
    requires c.Valid() && |b| == 24
    ensures Takes(c, b, ShownBoard(c, b))
  {
    hide To, Inverse;
    forall x: Point ensures ShownBoard(c, b)[To(c, x)] == Hue(c, b[x]) { ToInverse(c, x); }
  }

  lemma TakesBack(c: Recast, b: seq<int>, d: seq<int>)
    requires c.Valid() && |b| == 24 && |d| == 24 && Takes(c, b, d)
    ensures Takes(Inverse(c), d, b)
  {
    hide To;
    forall y: Point ensures b[To(Inverse(c), y)] == Hue(Inverse(c), d[y]) {
      ToInverse(c, y);
      assert d[To(c, To(Inverse(c), y))] == Hue(c, b[To(Inverse(c), y)]);
    }
  }

  lemma ShownWrite(c: Recast, b: seq<int>, x: Point, v: int)
    requires c.Valid() && |b| == 24
    ensures ShownBoard(c, b[x := v]) == ShownBoard(c, b)[To(c, x) := Hue(c, v)]
  {
    hide To, Inverse;
    var p, q := ShownBoard(c, b[x := v]), ShownBoard(c, b)[To(c, x) := Hue(c, v)];
    forall y: Point ensures p[y] == q[y] {
      ToInverse(c, x);
      ToInverse(c, y);
    }
  }

  // ---------------------------------------------------------------- mills and moves

  lemma FullIs(b: seq<int>, j: nat, v: int)
    requires |b| == 24 && j < 16
    ensures Full(b, j, v) <==> forall x: Point :: OnLine(x, j) ==> b[x] == v
  {
    hide Line;
  }

  lemma FullShown(c: Recast, b: seq<int>, d: seq<int>, j: nat, v: int)
    requires c.Valid() && |b| == 24 && |d| == 24 && Takes(c, b, d) && j < 16 && Full(b, j, v)
    ensures LineImage(c.op, j) < 16 && Full(d, LineImage(c.op, j), Hue(c, v))
  {
    LineImageParts(c.op, j);
    hide *;
    FullIs(b, j, v);
    FullIs(d, LineImage(c.op, j), Hue(c, v));
    forall y: Point | OnLine(y, LineImage(c.op, j)) ensures d[y] == Hue(c, v) {
      FullShownAt(c, b, d, j, y);
    }
  }

  lemma FullShownAt(c: Recast, b: seq<int>, d: seq<int>, j: nat, y: Point)
    requires c.Valid() && |b| == 24 && |d| == 24 && Takes(c, b, d) && j < 16
    requires LineImage(c.op, j) < 16 && OnLine(y, LineImage(c.op, j))
    ensures exists x: Point :: OnLine(x, j) && d[y] == Hue(c, b[x])
  {
    var x := To(Inverse(c), y);
    ToInverse(c, y);
    assert To(c, x) == y && d[To(c, x)] == Hue(c, b[x]);
    OnLineImage(c.op, x, j);
    assert OnLine(x, j) by { hide OnLine, LineImage, Takes, Inverse; }
  }

  lemma MillShownTo(c: Recast, b: seq<int>, d: seq<int>, m: Point)
    requires c.Valid() && |b| == 24 && |d| == 24 && Takes(c, b, d) && InMill(b, m)
    ensures InMill(d, To(c, m))
  {
    hide OnLine, Full, LineImage, Line;
    var j: nat :| j < 16 && OnLine(m, j) && Full(b, j, b[m]);
    FullShown(c, b, d, j, b[m]);
    OnLineImage(c.op, m, j);
    assert d[To(c, m)] == Hue(c, b[m]);
  }

  /** Mills are kept. */
  lemma MillShown(c: Recast, b: seq<int>, m: Point)
    requires c.Valid() && |b| == 24
    ensures InMill(ShownBoard(c, b), To(c, m)) == InMill(b, m)
  {
    var d := ShownBoard(c, b);
    ShownTakes(c, b);
    TakesBack(c, b, d);
    ToInverse(c, m);
    hide InMill, Takes, To, Inverse;
    if InMill(b, m) { MillShownTo(c, b, d, m); }
    if InMill(d, To(c, m)) { MillShownTo(Inverse(c), d, b, To(c, m)); }
  }

  lemma SlideShownTo(c: Recast, b: seq<int>, d: seq<int>, side: int)
    requires c.Valid() && |b| == 24 && |d| == 24 && Takes(c, b, d) && CanSlide(b, side)
    ensures CanSlide(d, Hue(c, side))
  {
    hide Adjacent, Image;
    var x: Point, y: Point :| b[x] == side && Adjacent(x, y) && b[y] == -1;
    AdjacentImage(c.op, x, y);
    assert d[To(c, x)] == Hue(c, b[x]) && d[To(c, y)] == Hue(c, b[y]);
    assert Adjacent(To(c, x), To(c, y));
  }

  lemma SlideShown(c: Recast, b: seq<int>, side: int)
    requires c.Valid() && |b| == 24
    ensures CanSlide(ShownBoard(c, b), Hue(c, side)) == CanSlide(b, side)
  {
    var d := ShownBoard(c, b);
    ShownTakes(c, b);
    TakesBack(c, b, d);
    HueTwice(c, side);
    hide CanSlide, Takes, Inverse, Hue;
    if CanSlide(b, side) { SlideShownTo(c, b, d, side); }
    if CanSlide(d, Hue(c, side)) { SlideShownTo(Inverse(c), d, b, Hue(c, side)); }
  }

  lemma HueTwice(c: Recast, v: int)
    requires c.Valid()
    ensures Hue(Inverse(c), Hue(c, v)) == v && Hue(c, Hue(Inverse(c), v)) == v
  {}

  lemma CanMoveShown(r: Rules, c: Recast, s: State)
    requires c.Valid() && s.Shaped()
    ensures CanMove(r, Shown(c, s)) == CanMove(r, s)
  {
    hide CanSlide;
    SlideShown(c, s.board, s.side);
  }

  // ---------------------------------------------------------------- one half-move

  lemma PlayedShown(r: Rules, c: Recast, s: State, m: Move)
    requires c.Valid() && s.Shaped()
    ensures Played(r, Shown(c, s), ShownMove(c, m)) == Shown(c, Played(r, s, m))
  {
    hide ShownBoard, To;
    match m
    case SetPiece(to) => ShownWrite(c, s.board, to, s.side);
    case MovePiece(from, to) =>
      ShownWrite(c, s.board, from, -1);
      ShownWrite(c, s.board[from := -1], to, s.side);
    case RemovePiece(from) => ShownWrite(c, s.board, from, -1);
  }

  lemma PassedShown(r: Rules, c: Recast, t: State)
    requires c.Valid() && t.Shaped()
    ensures Passed(r, Shown(c, t)) == Shown(c, Passed(r, t))
  {
    hide ShownBoard, CanMove;
    assert HandOver(r, Shown(c, t)) == Shown(c, HandOver(r, t));
    CanMoveShown(r, c, HandOver(r, t));
    assert Blocked(r, Shown(c, HandOver(r, t))) == Shown(c, Blocked(r, HandOver(r, t)));
  }

  lemma ClosesShown(c: Recast, t: State, m: Move)
    requires c.Valid() && t.Shaped()
    ensures ClosesMill(Shown(c, t), ShownMove(c, m)) == ClosesMill(t, m)
  {
    hide ShownBoard, To, InMill;
    if !m.RemovePiece? {
      MillShown(c, t.board, m.to);
    }
  }

  /** make_move commutes with every symmetry and with exchanging the colours. */
  lemma StepShown(r: Rules, c: Recast, s: State, m: Move)
    requires c.Valid() && s.Shaped()
    ensures Step(r, Shown(c, s), ShownMove(c, m)) == Shown(c, Step(r, s, m))
  {
    hide Played, Passed, ClosesMill, Shown, ShownMove, Capturing;
    var t := Played(r, s, m);
    PlayedShown(r, c, s, m);
    ClosesShown(c, t, m);
    PassedShown(r, c, t);
    ShownParts(c, t);
  }

  lemma ShownParts(c: Recast, t: State)
    requires c.Valid() && t.Shaped()
    ensures Shown(c, t).stones[1 - Shown(c, t).side] == t.stones[1 - t.side]
    ensures Capturing(Shown(c, t)) == Shown(c, Capturing(t))
  {
    hide ShownBoard;
  }

  lemma LegalShown(r: Rules, c: Recast, s: State, m: Move)
    requires c.Valid() && s.Shaped()
    ensures Legal(r, Shown(c, s), ShownMove(c, m)) == Legal(r, s, m)
  {
    StepShown(r, c, s, m);
    CheckedShown(r, c, s, m);
    CountsShown(r, c, s);
    CountsShown(r, c, Step(r, s, m));
    SideShown(c, s, Step(r, s, m));
    hide Step, CountsChecked, MoveChecked, Shown;
  }

  lemma SideShown(c: Recast, s: State, u: State)
    requires c.Valid() && s.Shaped() && u.Shaped()
    ensures Shown(c, s).side == Shown(c, u).side <==> s.side == u.side
    ensures Shown(c, s).kle == s.kle
  {
    hide ShownBoard;
  }

  lemma CountsShown(r: Rules, c: Recast, s: State)
    requires c.Valid() && s.Shaped()
    ensures CountsChecked(r, Shown(c, s)) == CountsChecked(r, s)
  {
    hide ShownBoard;
  }

  lemma CellShown(c: Recast, s: State, x: Point, v: int)
    requires c.Valid() && s.Shaped()
    ensures Shown(c, s).board[To(c, x)] == Hue(c, v) <==> s.board[x] == v
  {
    ShownTakes(c, s.board);
    hide ShownBoard, To;
    assert ShownBoard(c, s.board)[To(c, x)] == Hue(c, s.board[x]);
  }

  lemma CheckedShown(r: Rules, c: Recast, s: State, m: Move)
    requires c.Valid() && s.Shaped()
    ensures MoveChecked(Shown(c, s), ShownMove(c, m)) == MoveChecked(s, m)
  {
    match m {
      case SetPiece(to) => CellShown(c, s, to, -1);
      case MovePiece(from, to) =>
        CellShown(c, s, from, s.side);
        CellShown(c, s, to, -1);
      case RemovePiece(from) => CellShown(c, s, from, 1 - s.side);
    }
    hide ShownBoard, To;
  }

  // ---------------------------------------------------------------- whole turns

  lemma MakesMillShown(c: Recast, s: State, from: int, to: Point)
    requires c.Valid() && s.Shaped() && -1 <= from < 24
    ensures MakesMill(Shown(c, s), if from == -1 then -1 else To(c, from), To(c, to)) == MakesMill(s, from, to)
  {
    hide ShownBoard, To, InMill;
    var b := s.board;
    if from != -1 {
      ShownWrite(c, b, from, -1);
      b := b[from := -1];
    }
    ShownWrite(c, b, to, s.side);
    MillShown(c, b[to := s.side], to);
  }

  lemma OfferedShown(r: Rules, c: Recast, s: State, t: AdvancedMove)
    requires c.Valid() && s.Shaped() && !t.onlyTaking
    ensures Offered(r, Shown(c, s), ShownTurn(c, t)) == Offered(r, s, t)
  {
    MakesMillShown(c, s, -1, t.to);
    MakesMillShown(c, s, t.from, t.to);
    CellShown(c, s, t.from, s.side);
    CellShown(c, s, t.to, -1);
    AdjacentShown(c, t.from, t.to);
    ToInverse(c, t.from);
    ToInverse(c, t.to);
    hide ShownBoard, To, MakesMill, Adjacent, Inverse;
  }

  lemma AdjacentShown(c: Recast, x: Point, y: Point)
    requires c.Valid()
    ensures Adjacent(To(c, x), To(c, y)) == Adjacent(x, y)
  {
    AdjacentImage(c.op, x, y);
    hide Adjacent, Image;
  }

  lemma VictimAt(c: Recast, b: seq<int>, victim: int, y: Point)
    requires c.Valid() && |b| == 24
    ensures ShownBoard(c, b)[To(c, y)] == Hue(c, victim) <==> b[y] == victim
  {
    ShownTakes(c, b);
    hide ShownBoard, To;
    assert ShownBoard(c, b)[To(c, y)] == Hue(c, b[y]);
  }

  lemma AllInMillShown(c: Recast, b: seq<int>, victim: int)
    requires c.Valid() && |b| == 24
    ensures AllInMill(ShownBoard(c, b), Hue(c, victim)) == AllInMill(b, victim)
  {
    var d := ShownBoard(c, b);
    hide ShownBoard, InMill, To, Inverse, Hue;
    if AllInMill(b, victim) {
      forall z: Point | d[z] == Hue(c, victim) ensures InMill(d, z) {
        var y := To(Inverse(c), z);
        ToInverse(c, z);
        VictimAt(c, b, victim, y);
        MillShown(c, b, y);
      }
    }
    if AllInMill(d, Hue(c, victim)) {
      forall y: Point | b[y] == victim ensures InMill(b, y) {
        VictimAt(c, b, victim, y);
        MillShown(c, b, y);
      }
    }
  }

  lemma TakeableShown(c: Recast, b: seq<int>, victim: int, x: Point)
    requires c.Valid() && |b| == 24
    ensures Takeable(ShownBoard(c, b), Hue(c, victim), To(c, x)) == Takeable(b, victim, x)
  {
    MillShown(c, b, x);
    VictimAt(c, b, victim, x);
    AllInMillShown(c, b, victim);
    hide ShownBoard, InMill, AllInMill, To, Hue;
  }

  lemma VictimShown(c: Recast, s: State)
    requires c.Valid() && s.Shaped()
    ensures 1 - Shown(c, s).side == Hue(c, 1 - s.side)
    ensures Shown(c, s).board == ShownBoard(c, s.board)
  {
    hide ShownBoard;
  }

  lemma CaptureIs(r: Rules, s: State, t: AdvancedMove)
    requires s.Shaped() && s.kle
    ensures Turn(r, s, t) <==> t.from == 0 && t.to == 0 && t.moveType.SlideMove? && !t.withTaking && t.onlyTaking
                               && Takeable(s.board, 1 - s.side, t.takeHon)
  {
    hide Offered, Takeable;
  }

  lemma CaptureShown(r: Rules, c: Recast, s: State, t: AdvancedMove)
    requires c.Valid() && s.Shaped() && s.kle
    ensures Turn(r, Shown(c, s), ShownTurn(c, t)) == Turn(r, s, t)
  {
    hide Turn, Takeable, Shown, To, Hue, ShownBoard;
    SideShown(c, s, s);
    VictimShown(c, s);
    CaptureIs(r, s, t);
    CaptureIs(r, Shown(c, s), ShownTurn(c, t));
    if t.onlyTaking {
      TakeableShown(c, s.board, 1 - s.side, t.takeHon);
    }
  }

  lemma MoveIs(r: Rules, s: State, t: AdvancedMove)
    requires s.Shaped() && !s.kle
    ensures Turn(r, s, t) <==> !t.onlyTaking && Offered(r, s, t)
                               && if t.withTaking then Takeable(s.board, 1 - s.side, t.takeHon) else t.takeHon == 0
  {
    hide Offered, Takeable;
  }

  lemma MoveShown(r: Rules, c: Recast, s: State, t: AdvancedMove)
    requires c.Valid() && s.Shaped() && !s.kle
    ensures Turn(r, Shown(c, s), ShownTurn(c, t)) == Turn(r, s, t)
  {
    hide Turn, Offered, Takeable, Shown, To, Hue, ShownBoard;
    SideShown(c, s, s);
    VictimShown(c, s);
    MoveIs(r, s, t);
    MoveIs(r, Shown(c, s), ShownTurn(c, t));
    if !t.onlyTaking {
      OfferedShown(r, c, s, t);
      TakeableShown(c, s.board, 1 - s.side, t.takeHon);
    }
  }

  lemma TurnShown(r: Rules, c: Recast, s: State, t: AdvancedMove)
    requires c.Valid() && s.Shaped()
    ensures Turn(r, Shown(c, s), ShownTurn(c, t)) == Turn(r, s, t)
  {
    hide Turn, Shown, ShownTurn;
    if s.kle { CaptureShown(r, c, s, t); } else { MoveShown(r, c, s, t); }
  }

  lemma TurnBack(c: Recast, t: AdvancedMove)
    requires c.Valid()
    ensures ShownTurn(c, ShownTurn(Inverse(c), t)) == t
  {
    ToInverse(c, t.from);
    ToInverse(c, t.to);
    ToInverse(c, t.takeHon);
    hide To;
  }

  lemma FirstShown(c: Recast, t: AdvancedMove)
    requires c.Valid()
    ensures FirstMove(ShownTurn(c, t)) == ShownMove(c, FirstMove(t))
  {
    hide To;
  }

  /** Playing a turn commutes with every symmetry and with exchanging the colours, and no
      assertion tells the two apart. */
  lemma ApplyShown(r: Rules, c: Recast, s: State, t: AdvancedMove)
    requires c.Valid() && s.Shaped()
    ensures Apply(r, Shown(c, s), ShownTurn(c, t)) == Shown(c, Apply(r, s, t))
    ensures ApplyLegal(r, Shown(c, s), ShownTurn(c, t)) == ApplyLegal(r, s, t)
  {
    FirstShown(c, t);
    StepShown(r, c, s, FirstMove(t));
    LegalShown(r, c, s, FirstMove(t));
    var u := Step(r, s, FirstMove(t));
    StepShown(r, c, u, RemovePiece(t.takeHon));
    LegalShown(r, c, u, RemovePiece(t.takeHon));
    hide Step, Legal, Shown, To, FirstMove;
  }

  /** The turns of a transformed state are the transformed turns, one for one. */
  lemma TurnsAreImages(r: Rules, c: Recast, s: State)
    requires c.Valid() && s.Shaped()
    ensures forall t :: Turn(r, s, t) ==> Turn(r, Shown(c, s), ShownTurn(c, t))
    ensures forall t :: Turn(r, Shown(c, s), t) ==> exists u :: Turn(r, s, u) && t == ShownTurn(c, u)
    ensures forall t, u :: ShownTurn(c, t) == ShownTurn(c, u) ==> t == u
  {
    hide Turn, Shown, ShownTurn;
    forall t ensures Turn(r, Shown(c, s), ShownTurn(c, t)) == Turn(r, s, t) { TurnShown(r, c, s, t); }
    forall t ensures ShownTurn(c, ShownTurn(Inverse(c), t)) == t { TurnBack(c, t); }
    ToInverse(c, 0);
    forall t ensures ShownTurn(Inverse(c), ShownTurn(c, t)) == t { TurnBack(Inverse(c), t); }
    forall t | Turn(r, Shown(c, s), t) ensures exists u :: Turn(r, s, u) && t == ShownTurn(c, u) {
      assert t == ShownTurn(c, ShownTurn(Inverse(c), t));
    }
  }
}
