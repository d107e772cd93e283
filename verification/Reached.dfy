/** Positions reached by play: the side that has just moved has a stone on the board, so no mill is
    ever dropped and can_move agrees with the generator. */
module Reached {
  import opened MillRules
  import opened Game
  import opened GameInvariant
  import opened Turns
  import opened TurnTheorems
  import opened SectorPlay

  /** Whoever completes a turn has a stone on the board afterwards. */
  lemma MoverHasStone(r: Rules, s: State, t: AdvancedMove)
    requires s.Shaped() && Consistent(r, s) && !s.kle && (s.over ==> s.winner == -1) && Turn(r, s, t)
    ensures var u := Apply(r, s, t); u.side == 1 - s.side && u.stones[1 - u.side] > 0
  {
    hide *;
    TurnCounts(r, s, t);
    OfferedNeeds(r, s, t);
    CountsFit(r, s);
  }

  lemma {:induction false} RunLeavesStone(r: Rules, s: State, ts: seq<AdvancedMove>)
    requires s.Shaped() && Consistent(r, s) && !s.kle && TurnRun(r, s, ts)
    ensures Consistent(r, After(r, s, ts)) && !After(r, s, ts).kle
    ensures ts != [] ==> After(r, s, ts).stones[1 - After(r, s, ts).side] > 0
    decreases |ts|
  {
    hide Consistent, Apply, Turn, Future;
    if ts != [] {
      GeneratedTurnsPlay(r, s, ts[0]);
      MoverHasStone(r, s, ts[0]);
      RunLeavesStone(r, Apply(r, s, ts[0]), ts[1..]);
    }
  }

  /** After any turns from the empty board the counts agree and no capture is pending; after at
      least one, the side that has just moved has a stone. */
  lemma ReachedIsStocked(r: Rules, ts: seq<AdvancedMove>)
    requires r.maxKSZ >= 3 && TurnRun(r, Start(), ts)
    ensures var e := After(r, Start(), ts); Consistent(r, e) && !e.kle && (ts != [] ==> e.stones[1 - e.side] > 0)
  {
    hide *;
    StartIsRight(r);
    StartIsCalm();
    RunLeavesStone(r, Start(), ts);
  }

  lemma StartIsCalm()
    ensures !Start().kle
  {}

  /** A line has three points. */
  lemma LinePointsDiffer(j: nat)
    requires j < 16
    ensures Line(j).0 != Line(j).1 && Line(j).0 != Line(j).2 && Line(j).1 != Line(j).2
  {}

  /** One stone closes no mill. */
  lemma FirstStoneIsNoMill(x: Point)
    ensures !MakesMill(Start(), -1, x)
  {
    var b := Placed(Start(), -1, x);
    forall j: nat | j < 16 && OnLine(x, j) ensures !Full(b, j, b[x]) { LinePointsDiffer(j); }
    hide Line, Full;
  }

  lemma FirstOfferTakesNothing(r: Rules, t: AdvancedMove)
    requires r.maxKSZ >= 3 && Offered(r, Start(), t) && !t.onlyTaking
    ensures !t.withTaking
  {
    FirstStoneIsNoMill(t.to);
    hide MakesMill;
  }

  /** In a position reached by play every offered move starts a generated turn. */
  lemma ReachedHalves(r: Rules, ts: seq<AdvancedMove>, t: AdvancedMove)
    requires r.maxKSZ >= 3 && TurnRun(r, Start(), ts)
    requires Offered(r, After(r, Start(), ts), t) && !t.onlyTaking
    ensures exists x: Point :: Turn(r, After(r, Start(), ts), t.(takeHon := x))
  {
    hide Offered, Turn, TurnRun, Consistent;
    ReachedIsStocked(r, ts);
    FirstHalves(r, After(r, Start(), ts), t);
    if ts == [] { FirstOfferTakesNothing(r, t); }
  }

  /** In a position reached by play, with three stones left to the mover, can_move holds exactly
      when some turn is generated. */
  lemma ReachedCanMoveIff(r: Rules, ts: seq<AdvancedMove>)
    requires 3 <= r.maxKSZ <= 12 && TurnRun(r, Start(), ts)
    requires var e := After(r, Start(), ts); Future(r, e, e.side) >= 3
    ensures CanMove(r, After(r, Start(), ts)) <==> exists t :: Turn(r, After(r, Start(), ts), t)
  {
    hide Offered, Turn, TurnRun, Consistent, CanMove, Future, After;
    ReachedIsStocked(r, ts);
    var e := After(r, Start(), ts);
    if CanMove(r, e) {
      var t := MoveGivesOffer(r, e);
      ReachedHalves(r, ts, t);
      var x: Point :| Turn(r, e, t.(takeHon := x));
    }
    if t :| Turn(r, e, t) {
      TurnGivesMove(r, e, t);
    }
  }

  /** The position of the dropped mill is none of these. */
  lemma DroppedMillIsSetUp(r: Rules, ts: seq<AdvancedMove>)
    requires r.maxKSZ >= 3 && TurnRun(r, Start(), ts)
    ensures After(r, Start(), ts) != NothingToTake()
  {
    ReachedIsStocked(r, ts);
    hide TurnRun, Consistent;
  }
}
