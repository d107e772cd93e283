/** Read off the list of half-moves alone: the fifty-move clock of a game, and how it stands. */
module Verdicts {
  import opened MillRules
  import opened Game
  import opened GameInvariant

  // ---------------------------------------------------------------- the clock

  /** How many moves of stones on the board end the list, since the last placement or capture. */
  function Quiet(ms: seq<Move>): nat {
    if ms == [] || !ms[|ms| - 1].MovePiece? then 0 else Quiet(ms[..|ms| - 1]) + 1
  }

  /** The clock has run out: fifty quiet moves end the list, but perhaps for the capture that the
      fiftieth of them earned. */
  predicate Fifty(ms: seq<Move>) {
    || Quiet(ms) == 50
    || (ms != [] && ms[|ms| - 1].RemovePiece? && Quiet(ms[..|ms| - 1]) == 50)
  }

  lemma StepClock(r: Rules, s: State, m: Move)
    requires s.Shaped()
    ensures Step(r, s, m).lastIrrev == if m.MovePiece? then s.lastIrrev + 1 else 0
    ensures Step(r, s, m).moveCount == s.moveCount + 1
  {
    hide InMill, CanMove;
  }

  // ---------------------------------------------------------------- the verdict

  /** The side to move has no move. */
  ghost predicate Stuck(r: Rules, e: State)
    requires e.Shaped()
  {
    !e.kle && !CanMove(r, e)
  }

  /** The side to move has lost too many stones. */
  predicate Short(r: Rules, e: State)
    requires |e.stones| == 2 && |e.placed| == 2 && 0 <= e.side < 2
  {
    !e.kle && Future(r, e, e.side) < 3
  }

  /** Over, and for whom: a blocked side loses unless a full board is a draw, a side short of stones
      loses, and otherwise the clock has run out and nobody wins. */
  ghost predicate Stands(r: Rules, e: State, fifty: bool)
    requires e.Shaped()
  {
    && (e.block <==> Stuck(r, e))
    && (e.over <==> fifty || Short(r, e) || Stuck(r, e))
    && (e.over && e.kle ==> e.lastIrrev == 50)
    && e.winner == (if Stuck(r, e) then (if r.fullBoardIsDraw && e.stones == [12, 12] then -1 else 1 - e.side)
                    else if Short(r, e) then 1 - e.side
                    else if fifty then -1
                    else 0)
  }

  lemma BlockedCannotMove(r: Rules, u: State)
    requires u.Shaped()
    ensures CanMove(r, Blocked(r, u)) == CanMove(r, u)
  {}

  lemma CapturingStands(r: Rules, s: State, m: Move, fifty: bool)
    requires s.Shaped() && Timed(r, s) && Open(s, m) && Stands(r, s, fifty) && !m.RemovePiece?
    ensures var u := Capturing(Played(r, s, m)); Stands(r, u, u.lastIrrev == 50)
  {
    hide CanMove;
  }

  lemma PassedStands(r: Rules, s: State, m: Move, fifty: bool)
    requires s.Shaped() && Timed(r, s) && Open(s, m) && Stands(r, s, fifty) && (s.kle ==> m.RemovePiece?)
    ensures var u := Passed(r, Played(r, s, m));
            Stands(r, u, u.lastIrrev == 50 || (m.RemovePiece? && s.lastIrrev == 50))
  {
    BlockedCannotMove(r, HandOver(r, Played(r, s, m)));
    hide CanMove;
  }

  lemma StandsStep(r: Rules, s: State, m: Move, fifty: bool)
    requires s.Shaped() && Timed(r, s) && Open(s, m) && Legal(r, s, m) && Stands(r, s, fifty)
    ensures var u := Step(r, s, m); Stands(r, u, u.lastIrrev == 50 || (m.RemovePiece? && s.lastIrrev == 50))
  {
    hide InMill, CanMove, Stands, Played, Passed, Capturing, Timed, Open, CountsChecked;
    var t := Played(r, s, m);
    if ClosesMill(t, m) && t.stones[1 - t.side] > 0 {
      CapturingStands(r, s, m, fifty);
    } else {
      PassedStands(r, s, m, fifty);
    }
  }

  // ---------------------------------------------------------------- whole games

  lemma {:induction false} EndNext(r: Rules, s: State, ms: seq<Move>, m: Move)
    requires s.Shaped()
    ensures End(r, s, ms + [m]) == Step(r, End(r, s, ms), m)
    ensures Run(r, s, ms + [m])
       <==> Run(r, s, ms) && Open(End(r, s, ms), m) && Legal(r, End(r, s, ms), m)
    decreases |ms|
  {
    hide Step, Legal, Open;
    if ms == [] {
      assert ([] + [m])[1..] == [] && ([] + [m])[0] == m;
      assert End(r, Step(r, s, m), []) == Step(r, s, m) && Run(r, Step(r, s, m), []);
    } else {
      assert (ms + [m])[1..] == ms[1..] + [m] && (ms + [m])[0] == ms[0];
      EndNext(r, Step(r, s, ms[0]), ms[1..], m);
    }
  }

  lemma StartStands(r: Rules)
    requires r.maxKSZ >= 3
    ensures Start().lastIrrev == 0 && Start().moveCount == 0 && Stands(r, Start(), false)
  {}

  lemma QuietNext(ms: seq<Move>, m: Move)
    ensures Quiet(ms + [m]) == if m.MovePiece? then Quiet(ms) + 1 else 0
    ensures Fifty(ms + [m]) <==> Quiet(ms + [m]) == 50 || (m.RemovePiece? && Quiet(ms) == 50)
  {
    assert (ms + [m])[..|ms + [m]| - 1] == ms;
  }

  /** In every game the clock is the number of quiet moves at the end of its list, the count is the
      length of the list, and the game stands as the clock, the stones and the board say. */
  lemma {:induction false} GameStands(r: Rules, ms: seq<Move>)
    requires r.maxKSZ >= 3 && Run(r, Start(), ms)
    ensures var e := End(r, Start(), ms);
            && e.lastIrrev == Quiet(ms)
            && e.moveCount == |ms|
            && Stands(r, e, Fifty(ms))
    decreases |ms|
  {
    hide Step, Legal, Open, Stands, Quiet, Fifty, Run, End, Timed, Consistent;
    if ms == [] {
      NothingPlayed(r);
      StartStands(r);
    } else {
      var front, m := ms[..|ms| - 1], ms[|ms| - 1];
      assert ms == front + [m];
      EndNext(r, Start(), front, m);
      GameStands(r, front);
      EveryGame(r, front);
      QuietNext(front, m);
      StepClock(r, End(r, Start(), front), m);
      StandsStep(r, End(r, Start(), front), m, Fifty(front));
    }
  }

  lemma NothingPlayed(r: Rules)
    ensures End(r, Start(), []) == Start() && Quiet([]) == 0 && !Fifty([])
  {}

  /** A game is drawn by the clock exactly when fifty quiet moves have been made and the side to move
      is neither blocked nor short of stones by them. */
  lemma DrawnByClock(r: Rules, ms: seq<Move>)
    requires r.maxKSZ >= 3 && Run(r, Start(), ms)
    ensures var e := End(r, Start(), ms);
            && (e.over && e.winner == -1 && !e.block <==> Fifty(ms) && !Stuck(r, e) && !Short(r, e))
            && (Quiet(ms) == 50 ==> e.over) && Quiet(ms) <= 50
  {
    GameStands(r, ms);
    EveryGame(r, ms);
    hide Quiet, Run, End, Consistent, CanMove;
  }

  // ---------------------------------------------------------------- which half-moves are accepted

  /** With no capture pending make_move accepts exactly this: placing a stone that is in hand on an
      empty point, or moving one of one's own to an empty point. */
  lemma AcceptedIff(r: Rules, s: State, m: Move)
    requires s.Shaped() && Consistent(r, s) && !s.kle
    ensures Legal(r, s, m) <==>
              && (!s.over || s.winner == -1)
              && match m
                 case SetPiece(to) => s.placed[s.side] < r.maxKSZ && s.board[to] == -1
                 case MovePiece(from, to) => s.board[from] == s.side && s.board[to] == -1
                 case RemovePiece(from) => false
  {
    hide InMill, CanMove, Count, ClosesMill;
  }

  /** With a capture pending it accepts exactly the taking of an opposing stone, and such half-moves
      as close another mill. */
  lemma AcceptedCaptureIff(r: Rules, s: State, m: Move)
    requires s.Shaped() && Consistent(r, s) && s.kle
    ensures Legal(r, s, m) <==>
              && (!s.over || s.winner == -1)
              && match m
                 case RemovePiece(from) => s.board[from] == 1 - s.side
                 case SetPiece(to) =>
                   && s.placed[s.side] < r.maxKSZ && s.board[to] == -1
                   && InMill(s.board[to := s.side], to)
                 case MovePiece(from, to) =>
                   && s.board[from] == s.side && s.board[to] == -1
                   && InMill(s.board[from := -1][to := s.side], to)
  {
    hide InMill, CanMove, Count;
  }
}
