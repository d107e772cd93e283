/** The rules engine: the game state and one half-move with the checks around it. */
module Game {
  import opened MillRules

  /** maxKSZ stones a side; under Lasker rules stones may move before all are placed. */
  datatype Rules = Rules(maxKSZ: nat, lasker: bool, fullBoardIsDraw: bool)

  datatype Move = SetPiece(to: Point) | MovePiece(from: Point, to: Point) | RemovePiece(from: Point)

  const LAST_IRREV_LIMIT := 50

  /** The fields of a game state: -1 is an empty point, 0 a white stone, 1 a black one;
      kle says that a capture is pending. */
  datatype State = State(board: seq<int>, phase: int, placed: seq<int>, stones: seq<int>, kle: bool, side: int,
                         moveCount: int, over: bool, winner: int, block: bool, lastIrrev: int)
  {
    ghost predicate Shaped() {
      && |board| == 24 && |placed| == 2 && |stones| == 2 && (side == 0 || side == 1)
      && forall x: Point :: -1 <= board[x] <= 1
    }
  }

  predicate Full(b: seq<int>, j: nat, c: int)
    requires |b| == 24 && j < 16
  {
    b[Line(j).0] == c && b[Line(j).1] == c && b[Line(j).2] == c
  }

  /** Point m is on a line whose three points all hold what m holds. */
  ghost predicate InMill(b: seq<int>, m: Point)
    requires |b| == 24
  {
    exists j: nat :: j < 16 && OnLine(m, j) && Full(b, j, b[m])
  }

  ghost predicate CanMove(r: Rules, s: State)
    requires s.Shaped()
  {
    s.placed[s.side] == r.maxKSZ && s.stones[s.side] > 3 ==> CanSlide(s.board, s.side)
  }

  /** Some stone of the side has an empty neighbour. */
  ghost predicate CanSlide(b: seq<int>, side: int)
    requires |b| == 24
  {
    exists x: Point, y: Point :: b[x] == side && Adjacent(x, y) && b[y] == -1
  }

  function Future(r: Rules, s: State, p: int): int
    requires |s.stones| == 2 && |s.placed| == 2 && 0 <= p < 2
  {
    s.stones[p] + r.maxKSZ - s.placed[p]
  }

  // ---------------------------------------------------------------- one half-move

  /** The stones after a move, before mills and turns are looked at. */
  function Played(r: Rules, s: State, m: Move): (t: State)
    requires |s.board| == 24 && |s.placed| == 2 && |s.stones| == 2 && 0 <= s.side < 2
    ensures s.Shaped() ==> t.Shaped()
    ensures t.side == s.side && t.kle == (s.kle && !m.RemovePiece?)
  {
    var p, q := s.side, 1 - s.side;
    match m
    case SetPiece(to) =>
      State(s.board[to := p], s.phase, s.placed[p := s.placed[p] + 1], s.stones[p := s.stones[p] + 1], s.kle, p,
            s.moveCount + 1, s.over, s.winner, s.block, 0)
    case MovePiece(from, to) =>
      var drawn := s.lastIrrev + 1 >= LAST_IRREV_LIMIT;
      State(s.board[from := -1][to := p], s.phase, s.placed, s.stones, s.kle, p,
            s.moveCount + 1, s.over || drawn, if drawn then -1 else s.winner, s.block, s.lastIrrev + 1)
    case RemovePiece(from) =>
      var won := s.stones[q] - 1 + r.maxKSZ - s.placed[q] < 3;
      State(s.board[from := -1], s.phase, s.placed, s.stones[q := s.stones[q] - 1], false, p,
            s.moveCount + 1, s.over || won, if won then p else s.winner, s.block, 0)
  }

  ghost predicate ClosesMill(t: State, m: Move)
    requires |t.board| == 24
  {
    !m.RemovePiece? && InMill(t.board, m.to)
  }

  /** The turn goes to the other side, and the second phase begins once all stones are placed. */
  function HandOver(r: Rules, t: State): (u: State)
    requires |t.placed| == 2
    ensures t.Shaped() ==> u.Shaped()
    ensures u.side == 1 - t.side
  {
    var phase := if t.placed[0] == r.maxKSZ == t.placed[1] && t.phase == 1 then 2 else t.phase;
    State(t.board, phase, t.placed, t.stones, t.kle, 1 - t.side, t.moveCount, t.over, t.winner, t.block, t.lastIrrev)
  }

  /** The side to move has no move: it loses, or the full board is a draw. */
  function Blocked(r: Rules, u: State): (v: State)
    requires |u.stones| == 2
    ensures u.Shaped() ==> v.Shaped()
    ensures v.side == u.side
  {
    var winner := if r.fullBoardIsDraw && u.stones[0] == 12 == u.stones[1] then -1 else 1 - u.side;
    State(u.board, u.phase, u.placed, u.stones, u.kle, u.side, u.moveCount, true, winner, true, u.lastIrrev)
  }

  ghost function Passed(r: Rules, t: State): (u: State)
    requires t.Shaped()
    ensures u.Shaped() && u.side == 1 - t.side
  {
    var u := HandOver(r, t);
    if CanMove(r, u) then u else Blocked(r, u)
  }

  function Capturing(t: State): (u: State)
    ensures t.Shaped() ==> u.Shaped()
  {
    State(t.board, t.phase, t.placed, t.stones, true, t.side, t.moveCount, t.over, t.winner, t.block, t.lastIrrev)
  }

  /** The state make_move leaves behind. */
  ghost function Step(r: Rules, s: State, m: Move): (u: State)
    requires s.Shaped()
    ensures u.Shaped()
  {
    var t := Played(r, s, m);
    if ClosesMill(t, m) && t.stones[1 - t.side] > 0 then Capturing(t) else Passed(r, t)
  }

  // ---------------------------------------------------------------- the checks

  predicate CountsChecked(r: Rules, s: State)
    requires |s.placed| == 2
  {
    && 0 <= s.placed[0] <= r.maxKSZ && 0 <= s.placed[1] <= r.maxKSZ
    && (s.phase == 1 || (s.phase == 2 && s.placed[0] == r.maxKSZ == s.placed[1]))
  }

  predicate MoveChecked(s: State, m: Move)
    requires |s.board| == 24
  {
    && (!s.over || s.winner == -1)
    && match m
       case SetPiece(to) => s.phase == 1 && s.board[to] == -1
       case MovePiece(from, to) => s.board[from] == s.side && s.board[to] == -1
       case RemovePiece(from) => s.kle && s.board[from] == 1 - s.side
  }

  /** None of the assertions met while making the move fails: the two checks before it, the
      one in can_move that no capture is pending, and the count check after it. */
  ghost predicate Legal(r: Rules, s: State, m: Move)
    requires s.Shaped()
  {
    && CountsChecked(r, s) && MoveChecked(s, m)
    && (s.kle && !m.RemovePiece? ==> Step(r, s, m).side == s.side)
    && CountsChecked(r, Step(r, s, m))
  }

  // ---------------------------------------------------------------- the loops

  /** The lines below n through point m, ascending: a row of invMillPos. */
  function Through(m: Point, n: nat): seq<nat>
    requires n <= 16
  {
    if n == 0 then []
    else if OnLine(m, n - 1) then Through(m, n - 1) + [n - 1] else Through(m, n - 1)
  }

  lemma {:induction false} ThroughIs(m: Point, n: nat)
    requires n <= 16
    ensures forall j: nat :: j in Through(m, n) <==> j < n && OnLine(m, j)
    ensures forall a, b :: 0 <= a < b < |Through(m, n)| ==> Through(m, n)[a] < Through(m, n)[b]
  {
    hide OnLine;
    if n > 0 {
      ThroughIs(m, n - 1);
      var l := Through(m, n - 1);
      assert forall a :: 0 <= a < |l| ==> l[a] in l;
    }
  }

  /** The points below n next to point x, ascending: a row of aLBoardGraph. */
  function Neighbours(x: Point, n: nat): (l: seq<Point>)
    requires n <= 24
    ensures forall y: nat :: y in l <==> y < n && Adjacent(x, y)
  {
    if n == 0 then []
    else if Adjacent(x, n - 1) then Neighbours(x, n - 1) + [n - 1] else Neighbours(x, n - 1)
  }

  /** check_mill: the last full line through m, or -1. */
  method CheckMill(b: seq<int>, m: Point) returns (result: int)
    requires |b| == 24
    ensures result > -1 <==> InMill(b, m)
    ensures -1 <= result < 16
    ensures result > -1 ==> OnLine(m, result) && Full(b, result, b[m])
                            && forall j: nat :: result < j < 16 && OnLine(m, j) ==> !Full(b, j, b[m])
  {
    hide OnLine, Full, Line, Through, InMill;
    result := -1;
    var lines := Through(m, 16);
    ThroughIs(m, 16);
    assert forall k :: 0 <= k < |lines| ==> lines[k] in lines;
    for i := 0 to |lines|
      invariant -1 <= result < 16
      invariant result > -1 ==> OnLine(m, result) && Full(b, result, b[m])
      invariant forall k :: 0 <= k < i && lines[k] > result ==> !Full(b, lines[k], b[m])
    {
      if Full(b, lines[i], b[m]) {
        result := lines[i];
      }
    }
    forall j: nat | result < j < 16 && OnLine(m, j) ensures !Full(b, j, b[m]) {
      assert j in lines;
    }
    MillIff(b, m, result);
  }

  lemma MillIff(b: seq<int>, m: Point, result: int)
    requires |b| == 24 && -1 <= result < 16
    requires result > -1 ==> OnLine(m, result) && Full(b, result, b[m])
    requires forall j: nat :: result < j < 16 && OnLine(m, j) ==> !Full(b, j, b[m])
    ensures result > -1 <==> InMill(b, m)
  {
    hide OnLine, Full, Line;
  }

  /** can_move. */
  method FindMove(r: Rules, s: State) returns (found: bool)
    requires s.Shaped()
    ensures found == CanMove(r, s)
  {
    hide Adjacent;
    if s.placed[s.side] == r.maxKSZ && s.stones[s.side] > 3 {
      for x := 0 to 24
        invariant forall p: Point, y: Point :: p < x && s.board[p] == s.side && Adjacent(p, y) ==> s.board[y] != -1
      {
        if s.board[x] == s.side {
          var row := Neighbours(x, 24);
          for k := 0 to |row|
            invariant forall l :: 0 <= l < k ==> s.board[row[l]] != -1
          {
            assert row[k] in row;
            var y := row[k];
            if s.board[y] == -1 {
              assert s.board[x] == s.side && Adjacent(x, y) && s.board[y] == -1;
              return true;
            }
          }
          forall y: Point | Adjacent(x, y) ensures s.board[y] != -1 {
            assert y in row;
          }
        }
      }
      return false;
    }
    return true;
  }

  // ---------------------------------------------------------------- the object

  class GameState {
    var board: seq<int>
    var phase: int
    var setStoneCount: seq<int>
    var stoneCount: seq<int>
    var kle: bool
    var sideToMove: int
    var moveCount: int
    var over: bool
    var winner: int
    var block: bool
    var lastIrrev: int

    ghost function View(): State
      reads this
    {
      State(board, phase, setStoneCount, stoneCount, kle, sideToMove, moveCount, over, winner, block, lastIrrev)
    }

    /** The start of a game. */
    constructor ()
      ensures View() == Start()
    {
      board := seq(24, _ => -1);
      phase, setStoneCount, stoneCount, kle, sideToMove := 1, [0, 0], [0, 0], false, 0;
      moveCount, over, winner, block, lastIrrev := 0, false, 0, false, 0;
    }

    /** A copy. */
    constructor Copy(s: GameState)
      ensures View() == s.View()
    {
      board, phase, setStoneCount, stoneCount := s.board, s.phase, s.setStoneCount, s.stoneCount;
      kle, sideToMove, moveCount, over := s.kle, s.sideToMove, s.moveCount, s.over;
      winner, block, lastIrrev := s.winner, s.block, s.lastIrrev;
    }

    /** make_move; legal says whether every assertion held. */
    method MakeMove(r: Rules, m: Move) returns (legal: bool)
      requires View().Shaped()
      modifies this
      ensures View() == Step(r, old(View()), m)
      ensures legal == Legal(r, old(View()), m)
    {
      hide Played, Passed, CountsChecked, MoveChecked, InMill;
      legal := CountsChecked(r, Snapshot()) && MoveChecked(Snapshot(), m);
      Play(r, m);
      var mill := -1;
      if !m.RemovePiece? {
        mill := CheckMill(board, m.to);
      }
      if mill > -1 && stoneCount[1 - sideToMove] > 0 {
        kle := true;
      } else {
        legal := legal && !kle;
        PassTurn(r);
      }
      legal := legal && CountsChecked(r, Snapshot());
    }

    /** Placing a stone: the first case of make_move. */
    method Place(r: Rules, to: Point)
      requires View().Shaped()
      modifies this
      ensures View() == Played(r, old(View()), SetPiece(to)).(moveCount := old(moveCount))
    {
      board := board[to := sideToMove];
      setStoneCount := setStoneCount[sideToMove := setStoneCount[sideToMove] + 1];
      stoneCount := stoneCount[sideToMove := stoneCount[sideToMove] + 1];
      lastIrrev := 0;
    }

    /** Moving a stone: the second case, with the fifty moves without change. */
    method Shift(r: Rules, from: Point, to: Point)
      requires View().Shaped()
      modifies this
      ensures View() == Played(r, old(View()), MovePiece(from, to)).(moveCount := old(moveCount))
    {
      board := board[from := -1];
      board := board[to := sideToMove];
      lastIrrev := lastIrrev + 1;
      if lastIrrev >= LAST_IRREV_LIMIT {
        over, winner := true, -1;
      }
    }

    /** Taking a stone: the third case, with the loss of a side left with two. */
    method Take(r: Rules, from: Point)
      requires View().Shaped()
      modifies this
      ensures View() == Played(r, old(View()), RemovePiece(from)).(moveCount := old(moveCount))
    {
      board := board[from := -1];
      stoneCount := stoneCount[1 - sideToMove := stoneCount[1 - sideToMove] - 1];
      kle := false;
      if stoneCount[1 - sideToMove] + r.maxKSZ - setStoneCount[1 - sideToMove] < 3 {
        over, winner := true, sideToMove;
      }
      lastIrrev := 0;
    }

    /** The first half of make_move: the stones and counters. */
    method Play(r: Rules, m: Move)
      requires View().Shaped()
      modifies this
      ensures View() == Played(r, old(View()), m)
    {
      moveCount := moveCount + 1;
      match m {
        case SetPiece(to) => Place(r, to);
        case MovePiece(from, to) => Shift(r, from, to);
        case RemovePiece(from) => Take(r, from);
      }
    }

    /** The second half of make_move, when no capture is due. */
    method PassTurn(r: Rules)
      requires View().Shaped()
      modifies this
      ensures View() == Passed(r, old(View()))
    {
      hide CanMove;
      sideToMove := 1 - sideToMove;
      if setStoneCount[0] == r.maxKSZ && setStoneCount[1] == r.maxKSZ && phase == 1 {
        phase := 2;
      }
      var free := FindMove(r, Snapshot());
      if !free {
        over, block, winner := true, true, 1 - sideToMove;
        if r.fullBoardIsDraw && stoneCount[0] == 12 && stoneCount[1] == 12 {
          winner := -1;
        }
      }
    }

    /** The state as a value, for the functions that take a state by reference. */
    function Snapshot(): (s: State)
      reads this
      ensures s == View()
    {
      State(board, phase, setStoneCount, stoneCount, kle, sideToMove, moveCount, over, winner, block, lastIrrev)
    }
  }

  function Start(): (s: State)
    ensures s.Shaped()
  {
    State(seq(24, _ => -1), 1, [0, 0], [0, 0], false, 0, 0, false, 0, false, 0)
  }
}
