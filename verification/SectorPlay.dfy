/** Play never leaves the sector graph: every turn follows an edge, so every position of every
    game has a sector, and a work unit that solves it. */
module SectorPlay {
  import opened MillRules
  import opened Game
  import opened GameInvariant
  import opened Turns
  import opened TurnTheorems
  import opened Ids
  import SG = SectorGraph
  import opened SolverView

  lemma StepCounts(r: Rules, s: State, m: Move)
    requires s.Shaped()
    ensures Step(r, s, m).stones == Played(r, s, m).stones && Step(r, s, m).placed == Played(r, s, m).placed
  {
    hide Played, CanMove, InMill;
  }

  /** Board and hand counts after a whole turn. */
  lemma TurnCounts(r: Rules, s: State, t: AdvancedMove)
    requires s.Shaped() && Consistent(r, s) && !s.kle && (s.over ==> s.winner == -1) && Turn(r, s, t)
    ensures var u, p, q := Apply(r, s, t), s.side, 1 - s.side;
            && u.side == q
            && u.stones[p] == s.stones[p] + (if t.moveType.SetMove? then 1 else 0)
            && u.placed[p] == s.placed[p] + (if t.moveType.SetMove? then 1 else 0)
            && u.stones[q] == s.stones[q] - (if t.withTaking then 1 else 0)
            && u.placed[q] == s.placed[q]
  {
    hide Step, Offered, InMill, AllInMill, Consistent, ApplyLegal, Legal, CountUpTo;
    GeneratedTurnsPlay(r, s, t);
    StepCounts(r, s, FirstMove(t));
    var v := Step(r, s, FirstMove(t));
    if t.withTaking {
      StepCounts(r, v, RemovePiece(t.takeHon));
      StoneIff(r, s, 1 - s.side);
      OfferedStep(r, s, t);
    }
  }

  /** A complete turn leaves the opponent with fewer than three stones on the board and in hand,
      or follows an edge of the sector graph. */
  lemma TurnIsEdge(r: Rules, s: State, t: AdvancedMove)
    requires s.Shaped() && Consistent(r, s) && !s.kle && (s.over ==> s.winner == -1) && Turn(r, s, t)
    ensures var u := Apply(r, s, t);
            Future(r, u, u.side) < 3 || SG.Edge(r.lasker, SectorOf(r, s), SectorOf(r, u))
  {
    hide *;
    TurnCounts(r, s, t);
    GeneratedTurnsPlay(r, s, t);
    OfferedNeeds(r, s, t);
    var u := Apply(r, s, t);
    CountsFit(r, s);
    CountsFit(r, u);
    SectorParts(r, s);
    SectorParts(r, u);
    EdgeOfCounts(r.lasker, SectorOf(r, s), SectorOf(r, u), t.moveType.SetMove?, t.withTaking);
  }

  lemma CountsFit(r: Rules, s: State)
    requires s.Shaped() && Consistent(r, s)
    ensures 0 <= s.stones[0] <= s.placed[0] <= r.maxKSZ && 0 <= s.stones[1] <= s.placed[1] <= r.maxKSZ
    ensures s.side == 0 || s.side == 1
  {
    hide CountUpTo;
  }

  /** A sector counts the mover's stones first. */
  lemma SectorParts(r: Rules, s: State)
    requires s.Shaped()
    ensures var id, p, q := SectorOf(r, s), s.side, 1 - s.side;
            && id.W == s.stones[p] && id.B == s.stones[q] && id.WF == r.maxKSZ - s.placed[p]
              && id.BF == r.maxKSZ - s.placed[q]
            && Future(r, s, s.side) == id.W + id.WF
  {}

  lemma EdgeOfCounts(lasker: bool, u: Id, v: Id, placing: bool, taking: bool)
    requires v == Id(u.B - (if taking then 1 else 0), u.W + (if placing then 1 else 0), u.BF,
             u.WF - (if placing then 1 else 0))
    requires if placing then u.WF > 0 else u.W > 0 && (lasker || u.WF == 0)
    requires v.W >= 0
    ensures v.W + v.WF < 3 || SG.Edge(lasker, u, v)
  {}

  lemma OfferedNeeds(r: Rules, s: State, t: AdvancedMove)
    requires s.Shaped() && Consistent(r, s) && !s.kle && Turn(r, s, t)
    ensures t.moveType.SetMove? ==> s.placed[s.side] < r.maxKSZ
    ensures t.moveType.SlideMove? ==> s.stones[s.side] > 0 && (r.lasker || s.placed[s.side] == r.maxKSZ)
  {
    StoneIff(r, s, s.side);
    hide Takeable, MakesMill, Adjacent, Count;
  }

  // ---------------------------------------------------------------- whole games

  /** A sequence of turns, each generated in its position by a side that can still play. */
  ghost predicate TurnRun(r: Rules, s: State, ts: seq<AdvancedMove>)
    requires s.Shaped()
    decreases |ts|
  {
    ts == [] || ((s.over ==> s.winner == -1) && Future(r, s, s.side) >= 3 && Turn(r, s, ts[0])
                 && TurnRun(r, Apply(r, s, ts[0]), ts[1..]))
  }

  ghost function After(r: Rules, s: State, ts: seq<AdvancedMove>): (e: State)
    requires s.Shaped()
    ensures e.Shaped()
    decreases |ts|
  {
    if ts == [] then s else After(r, Apply(r, s, ts[0]), ts[1..])
  }

  lemma {:induction false} RunStaysReachable(r: Rules, s: State, ts: seq<AdvancedMove>)
    requires s.Shaped() && Consistent(r, s) && !s.kle && TurnRun(r, s, ts)
    requires Future(r, s, s.side) < 3 || SG.Reachable(r.lasker, r.maxKSZ, SectorOf(r, s))
    ensures var e := After(r, s, ts);
            && Consistent(r, e) && !e.kle
            && (Future(r, e, e.side) < 3 || SG.Reachable(r.lasker, r.maxKSZ, SectorOf(r, e)))
    decreases |ts|
  {
    hide Consistent, Apply, Turn, Future, SectorOf, SG.Edge, SG.Reachable;
    if ts != [] {
      var u := Apply(r, s, ts[0]);
      GeneratedTurnsPlay(r, s, ts[0]);
      TurnIsEdge(r, s, ts[0]);
      if Future(r, u, u.side) >= 3 {
        SG.LinkReachable(r.lasker, r.maxKSZ, SectorOf(r, s), SectorOf(r, u));
      }
      RunStaysReachable(r, u, ts[1..]);
    }
  }

  /** After any turns from the empty board the side to move is short of stones (and the value is
      known without a table) or its sector is one the search lists. */
  lemma EveryPositionHasASector(r: Rules, ts: seq<AdvancedMove>, g: SG.Graph)
    requires r.maxKSZ >= 3 && TurnRun(r, Game.Start(), ts)
    requires g.Built() && g.lasker == r.lasker && g.maxKsz == r.maxKSZ
    ensures var e := After(r, Game.Start(), ts);
            Future(r, e, e.side) < 3 || SectorOf(r, e) in g.sectorList
  {
    hide *;
    StartLookup(r);
    SG.StartReachable(r.lasker, r.maxKSZ);
    RunStaysReachable(r, Game.Start(), ts);
    ListedIff(g, SectorOf(r, After(r, Game.Start(), ts)));
  }

  lemma StartLookup(r: Rules)
    requires r.maxKSZ >= 3
    ensures Consistent(r, Game.Start()) && !Game.Start().kle && SectorOf(r, Game.Start()) == SG.Start(r.maxKSZ)
  {
    StartIsRight(r);
  }

  lemma ListedIff(g: SG.Graph, u: Id)
    requires g.Built()
    ensures u in g.sectorList <==> SG.Reachable(g.lasker, g.maxKsz, u)
  {
    hide SG.Reachable;
  }
}
