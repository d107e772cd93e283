/** What every run of half-moves keeps: stone counts, phases, pending captures, the fifty-move
    counter, and why a game ends. */
module GameInvariant {
  import opened Game

  /** How many of the first n points hold c. */
  function CountUpTo(b: seq<int>, c: int, n: nat): nat
    requires n <= |b|
  {
    if n == 0 then 0 else CountUpTo(b, c, n - 1) + (if b[n - 1] == c then 1 else 0)
  }

  function Count(b: seq<int>, c: int): nat {
    CountUpTo(b, c, |b|)
  }

  lemma {:induction false} CountWrite(b: seq<int>, x: nat, d: int, c: int, n: nat)
    requires x < |b| && n <= |b|
    ensures CountUpTo(b[x := d], c, n)
         == CountUpTo(b, c, n) + (if x < n then (if d == c then 1 else 0) - (if b[x] == c then 1 else 0) else 0)
  {
    if n > 0 {
      CountWrite(b, x, d, c, n - 1);
    }
  }

  lemma {:induction false} CountPositive(b: seq<int>, c: int, n: nat)
    requires n <= |b|
    ensures CountUpTo(b, c, n) > 0 <==> exists x :: 0 <= x < n && b[x] == c
  {
    if n > 0 {
      CountPositive(b, c, n - 1);
    }
  }

  /** Counts agree with the board; the second phase needs both hands empty, and with no capture
      pending both hands empty means the second phase; a pending capture has a stone to take. */
  ghost predicate Consistent(r: Rules, s: State)
    requires s.Shaped()
  {
    && s.stones[0] == Count(s.board, 0) && s.stones[1] == Count(s.board, 1)
    && s.stones[0] <= s.placed[0] <= r.maxKSZ && s.stones[1] <= s.placed[1] <= r.maxKSZ
    && (s.phase == 1 || s.phase == 2)
    && (s.phase == 2 ==> s.placed[0] == r.maxKSZ == s.placed[1])
    && (!s.kle && s.placed[0] == r.maxKSZ == s.placed[1] ==> s.phase == 2)
    && (s.kle ==> s.stones[1 - s.side] > 0)
  }

  /** Who has won, and why: the loser is to move, and is short of stones or blocked. */
  ghost predicate Lost(r: Rules, s: State)
    requires s.Shaped()
  {
    !s.kle && s.winner == 1 - s.side && (Future(r, s, s.side) < 3 || !CanMove(r, s))
  }

  /** The clock and the end of the game. */
  ghost predicate Timed(r: Rules, s: State)
    requires s.Shaped()
  {
    && 0 <= s.lastIrrev <= LAST_IRREV_LIMIT
    && (s.lastIrrev == LAST_IRREV_LIMIT ==> s.over)
    && (!s.over || s.kle ==> Future(r, s, 0) >= 3 && Future(r, s, 1) >= 3)
    && (!s.over && !s.kle ==> CanMove(r, s))
    && (s.over && s.winner != -1 ==> Lost(r, s))
  }

  /** A game goes on until it is over; a capture that is due is still made. */
  predicate Open(s: State, m: Move) { !s.over || (s.kle && m.RemovePiece?) }

  lemma PlayedCounts(r: Rules, s: State, m: Move)
    requires s.Shaped() && Consistent(r, s) && MoveChecked(s, m)
    ensures var t := Played(r, s, m);
            && t.stones[0] == Count(t.board, 0) && t.stones[1] == Count(t.board, 1)
            && t.stones[0] <= t.placed[0] && t.stones[1] <= t.placed[1]
            && t.phase == s.phase
            && (t.kle ==> t.stones[1 - t.side] > 0)
  {
    CountsPlayed(r, s, m, 0);
    CountsPlayed(r, s, m, 1);
  }

  lemma CountsPlayed(r: Rules, s: State, m: Move, c: int)
    requires s.Shaped() && MoveChecked(s, m) && (c == 0 || c == 1)
    ensures var t := Played(r, s, m);
            t.stones[c] - s.stones[c] == Count(t.board, c) - Count(s.board, c)
  {
    match m
    case SetPiece(to) => CountWrite(s.board, to, s.side, c, 24);
    case MovePiece(from, to) =>
      CountWrite(s.board, from, -1, c, 24);
      CountWrite(s.board[from := -1], to, s.side, c, 24);
    case RemovePiece(from) => CountWrite(s.board, from, -1, c, 24);
  }

  /** Every half-move that trips no assertion keeps the counts, even after a draw. */
  lemma ConsistentKept(r: Rules, s: State, m: Move)
    requires s.Shaped() && Consistent(r, s) && Legal(r, s, m)
    ensures Consistent(r, Step(r, s, m))
  {
    hide CanMove, InMill, Count;
    PlayedCounts(r, s, m);
  }

  /** While the game is open the clock and the verdict stay right. */
  lemma TimedKept(r: Rules, s: State, m: Move)
    requires s.Shaped() && Timed(r, s) && Open(s, m) && Legal(r, s, m)
    ensures Timed(r, Step(r, s, m))
  {
    hide InMill, CanSlide;
  }

  // ---------------------------------------------------------------- conservation and termination

  /** The side whose stone a half-move takes, or -1. */
  function Taken(s: State, m: Move): int {
    if m.RemovePiece? then 1 - s.side else -1
  }

  /** Stones on the board and in hand change only by captures. */
  lemma FutureStep(r: Rules, s: State, m: Move, p: int)
    requires s.Shaped() && (p == 0 || p == 1)
    ensures Future(r, Step(r, s, m), p) == Future(r, s, p) - (if Taken(s, m) == p then 1 else 0)
  {
    hide InMill, CanMove;
  }

  /** What is left to play: 51 for each stone on the board, 102 for each in hand, and the moves
      left before a draw. */
  function Potential(r: Rules, s: State): int
    requires |s.stones| == 2 && |s.placed| == 2
  {
    51 * (2 * (r.maxKSZ - s.placed[0] + r.maxKSZ - s.placed[1]) + s.stones[0] + s.stones[1])
    + LAST_IRREV_LIMIT - s.lastIrrev
  }

  lemma PotentialDrops(r: Rules, s: State, m: Move)
    requires s.Shaped() && s.lastIrrev <= LAST_IRREV_LIMIT
    ensures Potential(r, Step(r, s, m)) < Potential(r, s)
  {
    hide InMill, CanMove;
  }

  // ---------------------------------------------------------------- runs

  /** A run of half-moves, none of which trips an assertion or is made after the end. */
  ghost predicate Run(r: Rules, s: State, ms: seq<Move>)
    requires s.Shaped()
    decreases |ms|
  {
    ms == [] || (Open(s, ms[0]) && Legal(r, s, ms[0]) && Run(r, Step(r, s, ms[0]), ms[1..]))
  }

  ghost function End(r: Rules, s: State, ms: seq<Move>): (e: State)
    requires s.Shaped()
    ensures e.Shaped()
    decreases |ms|
  {
    if ms == [] then s else End(r, Step(r, s, ms[0]), ms[1..])
  }

  /** How many stones of p a run captures. */
  ghost function Captures(r: Rules, s: State, ms: seq<Move>, p: int): nat
    requires s.Shaped()
    decreases |ms|
  {
    if ms == [] then 0
    else (if Taken(s, ms[0]) == p then 1 else 0) + Captures(r, Step(r, s, ms[0]), ms[1..], p)
  }

  lemma {:induction false} RunKeeps(r: Rules, s: State, ms: seq<Move>)
    requires s.Shaped() && Consistent(r, s) && Timed(r, s) && Run(r, s, ms)
    ensures Consistent(r, End(r, s, ms)) && Timed(r, End(r, s, ms))
    ensures |ms| <= Potential(r, s)
    ensures Future(r, End(r, s, ms), 0) == Future(r, s, 0) - Captures(r, s, ms, 0)
    ensures Future(r, End(r, s, ms), 1) == Future(r, s, 1) - Captures(r, s, ms, 1)
    decreases |ms|
  {
    hide Consistent, Timed, Step, Legal, Future, Potential, Open, Taken;
    PotentialFromTimed(r, s);
    if ms != [] {
      ConsistentKept(r, s, ms[0]);
      TimedKept(r, s, ms[0]);
      FutureStep(r, s, ms[0], 0);
      FutureStep(r, s, ms[0], 1);
      PotentialDrops(r, s, ms[0]);
      RunKeeps(r, Step(r, s, ms[0]), ms[1..]);
    }
  }

  lemma PotentialFromTimed(r: Rules, s: State)
    requires s.Shaped() && Consistent(r, s) && Timed(r, s)
    ensures Potential(r, s) >= 0 && s.lastIrrev <= LAST_IRREV_LIMIT
  {}

  lemma StartCounts(c: int, n: nat)
    requires n <= 24 && c >= 0
    ensures CountUpTo(Start().board, c, n) == 0
  {}

  lemma StartIsRight(r: Rules)
    requires r.maxKSZ >= 3
    ensures Consistent(r, Start()) && Timed(r, Start())
    ensures Potential(r, Start()) == 204 * r.maxKSZ + 50
  {
    StartCounts(0, 24);
    StartCounts(1, 24);
  }

  /** Every game from the empty board: counts, phases and verdicts are right throughout, no stone
      appears or is lost but by capture, and the game is over after 204 * maxKSZ + 50 half-moves
      at the latest. */
  lemma EveryGame(r: Rules, ms: seq<Move>)
    requires r.maxKSZ >= 3 && Run(r, Start(), ms)
    ensures Consistent(r, End(r, Start(), ms)) && Timed(r, End(r, Start(), ms))
    ensures |ms| <= 204 * r.maxKSZ + 50
    ensures Future(r, End(r, Start(), ms), 0) + Captures(r, Start(), ms, 0) == r.maxKSZ
    ensures Future(r, End(r, Start(), ms), 1) + Captures(r, Start(), ms, 1) == r.maxKSZ
  {
    hide Consistent, Timed, Run, End, Captures, Potential;
    StartIsRight(r);
    RunKeeps(r, Start(), ms);
  }
}
