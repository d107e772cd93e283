/** The generator against the state machine: generated turns are playable, nothing playable is
    missed but a mill with nothing to take, and a side can move exactly when it has a turn. */
module TurnTheorems {
  import opened MillRules
  import opened Game
  import opened GameInvariant
  import opened Turns
  import RuleTables

  // ---------------------------------------------------------------- captures

  lemma FullKept(b: seq<int>, c: seq<int>, victim: int, j: nat)
    requires |b| == 24 && |c| == 24 && j < 16
    requires forall x: Point :: c[x] == victim <==> b[x] == victim
    ensures Full(c, j, victim) == Full(b, j, victim)
  {
    hide Line;
  }

  /** What may be taken depends only on where the victim's stones are. */
  lemma TakeableKept(b: seq<int>, c: seq<int>, victim: int, x: Point)
    requires |b| == 24 && |c| == 24
    requires forall y: Point :: c[y] == victim <==> b[y] == victim
    ensures Takeable(c, victim, x) == Takeable(b, victim, x)
  {
    hide Full, OnLine, Line;
    forall y: Point | b[y] == victim ensures InMill(c, y) == InMill(b, y) {
      forall j: nat | j < 16 ensures Full(c, j, victim) == Full(b, j, victim) {
        FullKept(b, c, victim, j);
      }
    }
  }

  lemma StepBoard(r: Rules, s: State, m: Move)
    requires s.Shaped()
    ensures Step(r, s, m).board == Played(r, s, m).board
  {
    hide Played, CanMove, InMill;
  }

  lemma VictimsKept(r: Rules, s: State, t: AdvancedMove)
    requires s.Shaped() && Offered(r, s, t) && !t.onlyTaking
    ensures forall x: Point :: Played(r, s, FirstMove(t)).board[x] == 1 - s.side <==> s.board[x] == 1 - s.side
  {
    hide MakesMill, Adjacent;
  }

  /** The captures are worked out before the move is made; the move does not change them. */
  lemma TakeableAfterMove(r: Rules, s: State, t: AdvancedMove, x: Point)
    requires s.Shaped() && Offered(r, s, t) && !t.onlyTaking
    ensures Takeable(Step(r, s, FirstMove(t)).board, 1 - s.side, x) == Takeable(s.board, 1 - s.side, x)
  {
    hide Offered, Takeable, Step, Played, FirstMove;
    StepBoard(r, s, FirstMove(t));
    VictimsKept(r, s, t);
    TakeableKept(s.board, Step(r, s, FirstMove(t)).board, 1 - s.side, x);
  }

  /** Something may be taken exactly when the opponent has a stone on the board. */
  lemma SomethingTakeable(b: seq<int>, victim: int)
    requires |b| == 24
    ensures (exists x: Point :: Takeable(b, victim, x)) <==> (exists x: Point :: b[x] == victim)
  {
    hide InMill;
    if x: Point :| b[x] == victim {
      if y: Point :| b[y] == victim && !InMill(b, y) {
        assert Takeable(b, victim, y);
      } else {
        assert Takeable(b, victim, x);
      }
    }
  }

  lemma StoneIff(r: Rules, s: State, p: int)
    requires s.Shaped() && Consistent(r, s) && (p == 0 || p == 1)
    ensures s.stones[p] > 0 <==> exists x: Point :: s.board[x] == p
  {
    CountPositive(s.board, p, 24);
  }

  // ---------------------------------------------------------------- generated turns are playable

  /** What the half-move of an offered turn does. */
  lemma OfferedStep(r: Rules, s: State, t: AdvancedMove)
    requires s.Shaped() && Consistent(r, s) && !s.kle && (s.over ==> s.winner == -1)
    requires Offered(r, s, t) && !t.onlyTaking
    ensures Legal(r, s, FirstMove(t))
    ensures Consistent(r, Step(r, s, FirstMove(t)))
    ensures Step(r, s, FirstMove(t)).kle == (t.withTaking && s.stones[1 - s.side] > 0)
    ensures t.withTaking && s.stones[1 - s.side] > 0 ==>
              && Step(r, s, FirstMove(t)).side == s.side
              && (s.over == Step(r, s, FirstMove(t)).over || Step(r, s, FirstMove(t)).winner == -1)
              && (Step(r, s, FirstMove(t)).over ==> Step(r, s, FirstMove(t)).winner == -1)
    ensures !(t.withTaking && s.stones[1 - s.side] > 0) ==> Step(r, s, FirstMove(t)).side == 1 - s.side
  {
    OfferedChecked(r, s, t);
    OfferedClosing(r, s, t);
    hide Offered, ClosesMill, CanMove, Consistent, MoveChecked, CountsChecked, FirstMove, Passed;
    OfferedPlayed(r, s, FirstMove(t));
    ConsistentKept(r, s, FirstMove(t));
  }

  lemma OfferedPlayed(r: Rules, s: State, m: Move)
    requires s.Shaped() && !m.RemovePiece?
    ensures Played(r, s, m).stones[1 - s.side] == s.stones[1 - s.side]
    ensures s.over == Played(r, s, m).over || Played(r, s, m).winner == -1
    ensures (s.over ==> s.winner == -1) ==> Played(r, s, m).over ==> Played(r, s, m).winner == -1
  {}

  lemma OfferedChecked(r: Rules, s: State, t: AdvancedMove)
    requires s.Shaped() && Consistent(r, s) && (s.over ==> s.winner == -1) && !s.kle
    requires Offered(r, s, t) && !t.onlyTaking
    ensures MoveChecked(s, FirstMove(t)) && CountsChecked(r, s) && !FirstMove(t).RemovePiece?
    ensures CountsChecked(r, Step(r, s, FirstMove(t)))
  {
    hide MakesMill, InMill, CanMove, Count, Adjacent;
  }

  lemma OfferedClosing(r: Rules, s: State, t: AdvancedMove)
    requires s.Shaped() && Offered(r, s, t) && !t.onlyTaking
    ensures ClosesMill(Played(r, s, FirstMove(t)), FirstMove(t)) == t.withTaking
  {
    hide InMill, Adjacent;
  }

  lemma CaptureStep(r: Rules, s: State, x: Point)
    requires s.Shaped() && Consistent(r, s) && s.kle && (s.over ==> s.winner == -1) && s.board[x] == 1 - s.side
    ensures Legal(r, s, RemovePiece(x)) && Consistent(r, Step(r, s, RemovePiece(x)))
    ensures var u := Step(r, s, RemovePiece(x)); !u.kle && u.side == 1 - s.side
  {
    hide CanMove, Count;
    assert CountsChecked(r, Step(r, s, RemovePiece(x)));
    ConsistentKept(r, s, RemovePiece(x));
  }

  /** No assertion fails while a generated turn is played, and after it the turn has passed, no
      capture is pending and the counts still agree. */
  lemma GeneratedTurnsPlay(r: Rules, s: State, t: AdvancedMove)
    requires s.Shaped() && Consistent(r, s) && (s.over ==> s.winner == -1) && Turn(r, s, t)
    ensures ApplyLegal(r, s, t) && Consistent(r, Apply(r, s, t))
    ensures !Apply(r, s, t).kle && Apply(r, s, t).side == 1 - s.side
  {
    hide Offered, Consistent, Legal, Step;
    if s.kle {
      assert s.board[t.takeHon] == 1 - s.side;
      CaptureStep(r, s, t.takeHon);
    } else {
      OfferedStep(r, s, t);
      if t.withTaking {
        StoneIff(r, s, 1 - s.side);
        TakeableAfterMove(r, s, t, t.takeHon);
        CaptureStep(r, Step(r, s, FirstMove(t)), t.takeHon);
      }
    }
  }

  // ---------------------------------------------------------------- what is generated

  /** The first half of some generated turn: exactly the offered moves, except that a mill is
      dropped when the opponent has no stone to take, although make_move would accept it. */
  lemma FirstHalves(r: Rules, s: State, t: AdvancedMove)
    requires s.Shaped() && Consistent(r, s) && !s.kle && Offered(r, s, t) && !t.onlyTaking
    ensures (exists x: Point :: Turn(r, s, t.(takeHon := x))) <==> (t.withTaking ==> s.stones[1 - s.side] > 0)
  {
    StoneIff(r, s, 1 - s.side);
    SomethingTakeable(s.board, 1 - s.side);
    forall x: Point ensures Offered(r, s, t.(takeHon := x)) {
    }
    hide Offered, Takeable, Consistent;
    if t.withTaking {
      if s.stones[1 - s.side] > 0 {
        var x: Point :| Takeable(s.board, 1 - s.side, x);
        assert Turn(r, s, t.(takeHon := x));
      }
    } else {
      assert Turn(r, s, t.(takeHon := 0));
    }
  }

  /** A position that can be set up but not played to: White on points 1 and 2, Black with two
      stones placed and none left on the board, White to place. Point 3 closes a mill with nothing
      to take. */
  function NothingToTake(): (s: State)
    ensures s.Shaped()
  {
    State(seq(24, _ => -1)[1 := 0][2 := 0], 1, [2, 2], [2, 0], false, 0, 6, false, 0, false, 0)
  }

  /** That position keeps every invariant and make_move accepts the mill there, passing the turn
      without a capture; yet the generator has no turn that begins with it. */
  lemma MillIsDropped()
    ensures var r, s, t := Rules(9, false, false), NothingToTake(), AdvancedMove(3, 3, SetMove, true, false, 0);
            && Consistent(r, s) && Timed(r, s) && Offered(r, s, t)
            && Legal(r, s, SetPiece(3)) && ClosesMill(Played(r, s, SetPiece(3)), SetPiece(3))
            && Step(r, s, SetPiece(3)).side == 1 && !Step(r, s, SetPiece(3)).kle
            && !exists u :: Turn(r, s, u) && FirstMove(u) == SetPiece(3)
  {
    var r, s, t := Rules(9, false, false), NothingToTake(), AdvancedMove(3, 3, SetMove, true, false, 0);
    StonesThere();
    MillThere();
    assert Offered(r, s, t) by { hide InMill; }
    assert Consistent(r, s) && Timed(r, s) by { hide CountUpTo, Line, OnLine; }
    OfferedStep(r, s, t);
    OfferedClosing(r, s, t);
    hide Consistent, Legal, Step, Played, Timed;
    forall u ensures !(Turn(r, s, u) && FirstMove(u) == SetPiece(3)) { NoSuchTurn(r, s, u, 3); }
  }

  /** With no opposing stone on the board no turn begins with a placement that closes a mill. */
  lemma NoSuchTurn(r: Rules, s: State, t: AdvancedMove, x: Point)
    requires s.Shaped() && !s.kle && MakesMill(s, -1, x) && forall y: Point :: s.board[y] != 1 - s.side
    ensures !(Turn(r, s, t) && FirstMove(t) == SetPiece(x))
  {
    hide InMill;
  }

  lemma StonesThere()
    ensures Count(NothingToTake().board, 0) == 2 && Count(NothingToTake().board, 1) == 0
  {
    var empty := seq(24, _ => -1);
    StartCounts(0, 24);
    StartCounts(1, 24);
    CountWrite(empty, 1, 0, 0, 24);
    CountWrite(empty[1 := 0], 2, 0, 0, 24);
    CountWrite(empty, 1, 0, 1, 24);
    CountWrite(empty[1 := 0], 2, 0, 1, 24);
    hide CountUpTo;
    assert Start().board == empty;
  }

  lemma MillThere()
    ensures MakesMill(NothingToTake(), -1, 3)
  {
    RuleTables.FirstLines();
    hide Line;
    var b := Placed(NothingToTake(), -1, 3);
    assert OnLine(3, 0) && Full(b, 0, b[3]);
  }

  lemma {:induction false} CountAll(b: seq<int>, n: nat)
    requires n <= |b| && forall x :: 0 <= x < |b| ==> -1 <= b[x] <= 1
    ensures CountUpTo(b, -1, n) + CountUpTo(b, 0, n) + CountUpTo(b, 1, n) == n
  {
    if n > 0 {
      CountAll(b, n - 1);
    }
  }

  /** With at most 23 stones on it the board has an empty point. */
  lemma EmptyPoint(r: Rules, s: State)
    requires s.Shaped() && Consistent(r, s) && s.stones[0] + s.stones[1] < 24
    ensures exists x: Point :: s.board[x] == -1
  {
    CountAll(s.board, 24);
    CountPositive(s.board, -1, 24);
  }

  lemma TurnGivesMove(r: Rules, s: State, t: AdvancedMove)
    requires s.Shaped() && Consistent(r, s) && !s.kle && Turn(r, s, t)
    ensures CanMove(r, s)
  {
    hide MakesMill, Takeable, Adjacent, Count;
    if s.placed[s.side] == r.maxKSZ && s.stones[s.side] > 3 {
      assert Adjacent(t.from, t.to);
    }
  }

  /** Where stones go: a slide takes one of the mover's to an empty neighbour, or with exactly three
      left on the board and in hand to any empty point; and then every such jump is offered. */
  lemma SlidesAndJumps(r: Rules, s: State, t: AdvancedMove)
    requires s.Shaped() && !s.kle
    ensures Turn(r, s, t) && t.moveType.SlideMove? ==>
              && s.board[t.from] == s.side && s.board[t.to] == -1
              && (Adjacent(t.from, t.to) || s.stones[s.side] + r.maxKSZ - s.placed[s.side] == 3)
    ensures t.moveType.SlideMove? && s.board[t.from] == s.side && s.board[t.to] == -1
            && t.withTaking == MakesMill(s, t.from, t.to) && s.placed[s.side] >= r.maxKSZ
            && (Adjacent(t.from, t.to) || s.stones[s.side] + r.maxKSZ - s.placed[s.side] == 3) ==>
              Offered(r, s, t)
  {
    hide MakesMill, Takeable, Adjacent;
  }

  /** A move that is offered whenever can_move says there is one. */
  lemma MoveGivesOffer(r: Rules, s: State) returns (t: AdvancedMove)
    requires s.Shaped() && Consistent(r, s) && r.maxKSZ <= 12 && Future(r, s, s.side) >= 3 && CanMove(r, s)
    ensures Offered(r, s, t) && !t.onlyTaking
  {
    hide MakesMill, Adjacent, Count;
    if s.placed[s.side] < r.maxKSZ {
      EmptyPoint(r, s);
      var x: Point :| s.board[x] == -1;
      t := AdvancedMove(x, x, SetMove, MakesMill(s, -1, x), false, 0);
    } else if s.stones[s.side] > 3 {
      var x: Point, y: Point :| s.board[x] == s.side && Adjacent(x, y) && s.board[y] == -1;
      t := AdvancedMove(x, y, SlideMove, MakesMill(s, x, y), false, 0);
    } else {
      EmptyPoint(r, s);
      StoneIff(r, s, s.side);
      var y: Point :| s.board[y] == -1;
      var x: Point :| s.board[x] == s.side;
      t := AdvancedMove(x, y, SlideMove, MakesMill(s, x, y), false, 0);
    }
  }

  /** can_move tells exactly whether the generated list is nonempty, when the opponent has a stone
      on the board and the mover is not already short of stones. */
  lemma CanMoveIffTurn(r: Rules, s: State)
    requires s.Shaped() && Consistent(r, s) && !s.kle && r.maxKSZ <= 12
    requires s.stones[1 - s.side] > 0 && Future(r, s, s.side) >= 3
    ensures CanMove(r, s) <==> exists t :: Turn(r, s, t)
  {
    hide Offered, CanMove, Takeable, Consistent, Turn;
    if CanMove(r, s) {
      var t := MoveGivesOffer(r, s);
      FirstHalves(r, s, t);
      var x: Point :| Turn(r, s, t.(takeHon := x));
    }
    if t :| Turn(r, s, t) {
      TurnGivesMove(r, s, t);
    }
  }

  /** Without those two conditions the list is nonempty exactly when some offered move needs no
      capture or has one. */
  lemma TurnIffOffer(r: Rules, s: State)
    requires s.Shaped() && Consistent(r, s) && !s.kle
    ensures (exists t :: Turn(r, s, t))
       <==> exists t :: Offered(r, s, t) && !t.onlyTaking && (t.withTaking ==> s.stones[1 - s.side] > 0)
  {
    hide Offered, Takeable, Consistent;
    if t :| Offered(r, s, t) && !t.onlyTaking && (t.withTaking ==> s.stones[1 - s.side] > 0) {
      FirstHalves(r, s, t);
    }
    if t :| Turn(r, s, t) {
      FirstHalves(r, s, t);
      assert t == t.(takeHon := t.takeHon);
    }
  }
}
