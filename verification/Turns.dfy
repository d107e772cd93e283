/** The player's move generator and the application of whole turns. */
module Turns {
  import opened MillRules
  import opened Game

  datatype MoveType = SetMove | SlideMove

  /** A whole turn: withTaking turns end in a capture, onlyTaking ones are just the capture. */
  datatype AdvancedMove = AdvancedMove(from: Point, to: Point, moveType: MoveType, withTaking: bool, onlyTaking: bool,
                                       takeHon: Point)

  // ---------------------------------------------------------------- which turns there are

  function Placed(s: State, from: int, to: Point): (b: seq<int>)
    requires |s.board| == 24 && -1 <= from < 24
    ensures |b| == 24
  {
    (if from == -1 then s.board else s.board[from := -1])[to := s.side]
  }

  ghost predicate MakesMill(s: State, from: int, to: Point)
    requires |s.board| == 24 && -1 <= from < 24
  {
    InMill(Placed(s, from, to), to)
  }

  ghost predicate SetBase(s: State, t: AdvancedMove)
    requires s.Shaped()
  {
    t.moveType.SetMove? && t.from == t.to && s.board[t.to] == -1 && t.withTaking == MakesMill(s, -1, t.to)
  }

  ghost predicate SlideBase(r: Rules, s: State, t: AdvancedMove)
    requires s.Shaped()
  {
    && t.moveType.SlideMove? && s.board[t.from] == s.side && s.board[t.to] == -1
    && (Future(r, s, s.side) == 3 || Adjacent(t.from, t.to))
    && t.withTaking == MakesMill(s, t.from, t.to)
  }

  /** The move part of a turn: stones are placed while the hand lasts; under Lasker rules they
      may also slide before that. */
  ghost predicate Offered(r: Rules, s: State, t: AdvancedMove)
    requires s.Shaped()
  {
    || (s.placed[s.side] < r.maxKSZ && SetBase(s, t))
    || ((r.lasker || s.placed[s.side] >= r.maxKSZ) && SlideBase(r, s, t))
  }

  /** everythingInMill: all stones of one colour are in mills. */
  ghost predicate AllInMill(b: seq<int>, victim: int)
    requires |b| == 24
  {
    forall y: Point :: b[y] == victim ==> InMill(b, y)
  }

  /** A stone in a mill is safe unless all the opponent's stones are in mills. */
  ghost predicate Takeable(b: seq<int>, victim: int, x: Point)
    requires |b| == 24
  {
    b[x] == victim && (!InMill(b, x) || AllInMill(b, victim))
  }

  /** All three points of some line through x hold what x holds. */
  ghost predicate OnFullLine(b: seq<int>, x: Point)
    requires |b| == 24
  {
    exists j: nat :: j < 16 && OnLine(x, j) && forall y: Point :: OnLine(y, j) ==> b[y] == b[x]
  }

  lemma InMillIsOnFullLine(b: seq<int>, x: Point)
    requires |b| == 24
    ensures InMill(b, x) <==> OnFullLine(b, x)
  {
    forall j: nat | j < 16 && OnLine(x, j)
      ensures Full(b, j, b[x]) <==> forall y: Point :: OnLine(y, j) ==> b[y] == b[x]
    {
      FullLine(b, j, b[x]);
    }
    hide Full, OnLine;
  }

  lemma FullLine(b: seq<int>, j: nat, c: int)
    requires |b| == 24 && j < 16
    ensures Full(b, j, c) <==> forall y: Point :: OnLine(y, j) ==> b[y] == c
  {
    hide Line;
    assert OnLine(Line(j).0, j) && OnLine(Line(j).1, j) && OnLine(Line(j).2, j);
  }

  /** The opponent's stone on x may be taken: it is on no full line, or all of that colour are. */
  ghost predicate MayBeTaken(s: State, x: Point)
    requires s.Shaped()
  {
    && s.board[x] == 1 - s.side
    && (OnFullLine(s.board, x) ==> forall y: Point :: s.board[y] == 1 - s.side ==> OnFullLine(s.board, y))
  }

  lemma TakeableIsMayBeTaken(s: State, x: Point)
    requires s.Shaped()
    ensures Takeable(s.board, 1 - s.side, x) <==> MayBeTaken(s, x)
  {
    hide InMill, OnFullLine;
    InMillIsOnFullLine(s.board, x);
    forall y: Point ensures InMill(s.board, y) <==> OnFullLine(s.board, y) { InMillIsOnFullLine(s.board, y); }
  }

  ghost predicate Turn(r: Rules, s: State, t: AdvancedMove)
    requires s.Shaped()
  {
    if s.kle then
      t == AdvancedMove(0, 0, SlideMove, false, true, t.takeHon) && Takeable(s.board, 1 - s.side, t.takeHon)
    else
      !t.onlyTaking && Offered(r, s, t) && if t.withTaking then Takeable(s.board, 1 - s.side, t.takeHon)
        else t.takeHon == 0
  }

  // ---------------------------------------------------------------- the generator

  /** No turn is listed twice. */
  ghost predicate Once(ts: seq<AdvancedMove>) {
    forall i, j :: 0 <= i < j < |ts| ==> ts[i] != ts[j]
  }

  lemma OnceAppend(ts: seq<AdvancedMove>, more: seq<AdvancedMove>)
    requires Once(ts) && Once(more) && forall t :: t in ts ==> t !in more
    ensures Once(ts + more)
  {
    forall i, j | 0 <= i < j < |ts + more| ensures (ts + more)[i] != (ts + more)[j] {
      if i < |ts| { assert ts[i] in ts; }
      if j >= |ts| { assert more[j - |ts|] in more; }
    }
  }

  lemma OnceNone()
    ensures Once([])
  {}

  lemma OnceOne(t: AdvancedMove)
    ensures Once([t])
  {}

  method FindsMill(s: State, from: int, to: Point) returns (mill: bool)
    requires s.Shaped() && -1 <= from < 24
    ensures mill == MakesMill(s, from, to)
  {
    var b := s.board;
    if from != -1 {
      b := b[from := -1];
    }
    b := b[to := s.side];
    var line := CheckMill(b, to);
    mill := -1 != line;
  }

  method SetMoves(s: State) returns (ts: seq<AdvancedMove>)
    requires s.Shaped()
    ensures Once(ts)
    ensures forall t :: t in ts <==> SetBase(s, t) && !t.onlyTaking && t.takeHon == 0
  {
    hide MakesMill, Once;
    OnceNone();
    ts := [];
    for i := 0 to 24
      invariant Once(ts)
      invariant forall t :: t in ts <==> t.to < i && SetBase(s, t) && !t.onlyTaking && t.takeHon == 0
    {
      if s.board[i] == -1 {
        var mill := FindsMill(s, -1, i);
        OnceOne(AdvancedMove(i, i, SetMove, mill, false, 0));
        OnceAppend(ts, [AdvancedMove(i, i, SetMove, mill, false, 0)]);
        ts := ts + [AdvancedMove(i, i, SetMove, mill, false, 0)];
      }
    }
  }

  method SlideMoves(r: Rules, s: State) returns (ts: seq<AdvancedMove>)
    requires s.Shaped()
    ensures Once(ts)
    ensures forall t :: t in ts <==> SlideBase(r, s, t) && !t.onlyTaking && t.takeHon == 0
  {
    hide MakesMill, Adjacent, Once;
    OnceNone();
    ts := [];
    for i := 0 to 24
      invariant Once(ts)
      invariant forall t :: t in ts <==> t.from < i && SlideBase(r, s, t) && !t.onlyTaking && t.takeHon == 0
    {
      for j := 0 to 24
        invariant Once(ts)
        invariant forall t :: t in ts <==> (t.from < i || (t.from == i && t.to < j)) && SlideBase(r, s, t)
                                           && !t.onlyTaking && t.takeHon == 0
      {
        if s.board[i] == s.side && s.board[j] == -1 && (Future(r, s, s.side) == 3 || Adjacent(i, j)) {
          var mill := FindsMill(s, i, j);
          OnceOne(AdvancedMove(i, j, SlideMove, mill, false, 0));
          OnceAppend(ts, [AdvancedMove(i, j, SlideMove, mill, false, 0)]);
          ts := ts + [AdvancedMove(i, j, SlideMove, mill, false, 0)];
        }
      }
    }
  }

  /** The first loop of with_taking_moves and only_taking_moves. */
  method EverythingInMill(s: State) returns (all: bool)
    requires s.Shaped()
    ensures all == AllInMill(s.board, 1 - s.side)
  {
    hide InMill;
    all := true;
    for i := 0 to 24
      invariant all == forall y: Point :: y < i && s.board[y] == 1 - s.side ==> InMill(s.board, y)
    {
      var line := CheckMill(s.board, i);
      if s.board[i] == 1 - s.side && line == -1 {
        all := false;
      }
    }
  }

  lemma CompletionsAre(s: State, m: AdvancedMove, ts: seq<AdvancedMove>)
    requires s.Shaped()
    requires forall t :: t in ts <==> t == m.(takeHon := t.takeHon) && Takeable(s.board, 1 - s.side, t.takeHon)
    ensures forall x: Point :: m.(takeHon := x) in ts <==> MayBeTaken(s, x)
  {
    hide Takeable, MayBeTaken;
    forall x: Point ensures m.(takeHon := x) in ts <==> MayBeTaken(s, x) {
      TakeableIsMayBeTaken(s, x);
      assert m.(takeHon := x).takeHon == x;
    }
  }

  method WithTakingMoves(s: State, m: AdvancedMove) returns (ts: seq<AdvancedMove>)
    requires s.Shaped()
    ensures Once(ts)
    ensures forall t :: t in ts <==> t == m.(takeHon := t.takeHon) && Takeable(s.board, 1 - s.side, t.takeHon)
    ensures forall x: Point :: m.(takeHon := x) in ts <==> MayBeTaken(s, x)
  {
    hide InMill, Once, MayBeTaken;
    OnceNone();
    ts := [];
    var all := EverythingInMill(s);
    for i := 0 to 24
      invariant Once(ts)
      invariant forall t :: t in ts <==> t == m.(takeHon := t.takeHon) && t.takeHon < i
                                         && Takeable(s.board, 1 - s.side, t.takeHon)
    {
      var line := CheckMill(s.board, i);
      if s.board[i] == 1 - s.side && (line == -1 || all) {
        OnceOne(m.(takeHon := i));
        OnceAppend(ts, [m.(takeHon := i)]);
        ts := ts + [m.(takeHon := i)];
      }
    }
    CompletionsAre(s, m, ts);
  }

  method OnlyTakingMoves(s: State) returns (ts: seq<AdvancedMove>)
    requires s.Shaped()
    ensures Once(ts)
    ensures forall t :: t in ts <==> t == AdvancedMove(0, 0, SlideMove, false, true, t.takeHon)
                                     && Takeable(s.board, 1 - s.side, t.takeHon)
    ensures forall x: Point :: AdvancedMove(0, 0, SlideMove, false, true, x) in ts <==> MayBeTaken(s, x)
  {
    hide InMill, Once, MayBeTaken;
    OnceNone();
    ts := [];
    var all := EverythingInMill(s);
    for i := 0 to 24
      invariant Once(ts)
      invariant forall t :: t in ts <==> t == AdvancedMove(0, 0, SlideMove, false, true, t.takeHon) && t.takeHon < i
                                         && Takeable(s.board, 1 - s.side, t.takeHon)
    {
      var line := CheckMill(s.board, i);
      if s.board[i] == 1 - s.side && (line == -1 || all) {
        OnceOne(AdvancedMove(0, 0, SlideMove, false, true, i));
        OnceAppend(ts, [AdvancedMove(0, 0, SlideMove, false, true, i)]);
        ts := ts + [AdvancedMove(0, 0, SlideMove, false, true, i)];
      }
    }
    CompletionsAre(s, AdvancedMove(0, 0, SlideMove, false, true, 0), ts);
  }

  /** The first part of get_move_list: what may be moved, captures left open. */
  method MovesOffered(r: Rules, s: State) returns (ms0: seq<AdvancedMove>)
    requires s.Shaped()
    ensures Once(ms0)
    ensures forall t :: t in ms0 <==> Offered(r, s, t) && !t.onlyTaking && t.takeHon == 0
  {
    hide Once, MakesMill, Adjacent;
    if !r.lasker {
      if s.placed[s.side] < r.maxKSZ {
        ms0 := SetMoves(s);
      } else {
        ms0 := SlideMoves(r, s);
      }
    } else {
      ms0 := SlideMoves(r, s);
      if s.placed[s.side] < r.maxKSZ {
        var setMovesResult := SetMoves(s);
        OnceAppend(ms0, setMovesResult);
        ms0 := ms0 + setMovesResult;
      }
    }
  }

  /** get_move_list: exactly the turns. */
  method GetMoveList(r: Rules, s: State) returns (ms: seq<AdvancedMove>)
    requires s.Shaped()
    ensures Once(ms)
    ensures forall t :: t in ms <==> Turn(r, s, t)
    ensures forall t, x: Point :: t in ms && (t.withTaking || t.onlyTaking) ==>
              (t.(takeHon := x) in ms <==> MayBeTaken(s, x))
  {
    hide Takeable, Offered, Completes, MayBeTaken;
    if s.kle {
      ms := OnlyTakingMoves(s);
    } else {
      var ms0 := MovesOffered(r, s);
      ms := Completed(s, ms0);
      CompletedAreTurns(r, s, ms0, ms);
    }
    forall t, x: Point | Turn(r, s, t) && (t.withTaking || t.onlyTaking)
      ensures Turn(r, s, t.(takeHon := x)) <==> MayBeTaken(s, x)
    {
      CapturesAreThose(r, s, t, x);
    }
  }

  /** A turn that takes a stone comes with every stone that may be taken, and with no other. */
  lemma CapturesAreThose(r: Rules, s: State, t: AdvancedMove, x: Point)
    requires s.Shaped() && Turn(r, s, t) && (t.withTaking || t.onlyTaking)
    ensures Turn(r, s, t.(takeHon := x)) <==> MayBeTaken(s, x)
  {
    hide Offered, Takeable, MayBeTaken;
    OfferedIgnoresTaken(r, s, t);
    OfferedIgnoresTaken(r, s, t.(takeHon := x));
    TakeableIsMayBeTaken(s, x);
    assert t.(takeHon := x).(takeHon := 0) == t.(takeHon := 0);
  }

  /** So while the opponent has a stone on no full line, no turn takes a stone of a full line and each
      of the others can be taken; when all its stones are on full lines, each of them can. */
  lemma MillsAreProtected(r: Rules, s: State, t: AdvancedMove)
    requires s.Shaped() && Turn(r, s, t) && (t.withTaking || t.onlyTaking)
    ensures s.board[t.takeHon] == 1 - s.side
    ensures (exists y: Point :: s.board[y] == 1 - s.side && !OnFullLine(s.board, y)) ==>
              && !OnFullLine(s.board, t.takeHon)
              && forall x: Point :: s.board[x] == 1 - s.side && !OnFullLine(s.board, x) ==>
                   Turn(r, s, t.(takeHon := x))
    ensures (forall y: Point :: s.board[y] == 1 - s.side ==> OnFullLine(s.board, y)) ==>
              forall x: Point :: s.board[x] == 1 - s.side ==> Turn(r, s, t.(takeHon := x))
  {
    hide Turn, OnFullLine;
    forall x: Point ensures Turn(r, s, t.(takeHon := x)) <==> MayBeTaken(s, x) { CapturesAreThose(r, s, t, x); }
    assert t.(takeHon := t.takeHon) == t;
  }

  /** The last loop of get_move_list: every mill is completed by each possible capture. */
  method Completed(s: State, ms0: seq<AdvancedMove>) returns (ms: seq<AdvancedMove>)
    requires s.Shaped()
    requires Once(ms0) && forall t :: t in ms0 ==> t.takeHon == 0
    ensures Once(ms)
    ensures forall t :: t in ms <==> exists i :: 0 <= i < |ms0| && Completes(s, ms0[i], t)
  {
    hide Takeable;
    ms := [];
    for i := 0 to |ms0|
      invariant Once(ms)
      invariant forall t :: t in ms <==> exists k :: 0 <= k < i && Completes(s, ms0[k], t)
    {
      if !ms0[i].withTaking {
        OnceOne(ms0[i]);
        OnceAppend(ms, [ms0[i]]);
        ms := ms + [ms0[i]];
      } else {
        var withTakingMovesResult := WithTakingMoves(s, ms0[i]);
        OnceAppend(ms, withTakingMovesResult);
        ms := ms + withTakingMovesResult;
      }
    }
  }

  ghost predicate Completes(s: State, m: AdvancedMove, t: AdvancedMove)
    requires s.Shaped()
  {
    if m.withTaking then t == m.(takeHon := t.takeHon) && Takeable(s.board, 1 - s.side, t.takeHon) else t == m
  }

  lemma CompletedAreTurns(r: Rules, s: State, ms0: seq<AdvancedMove>, ms: seq<AdvancedMove>)
    requires s.Shaped() && !s.kle
    requires forall t :: t in ms0 <==> Offered(r, s, t) && !t.onlyTaking && t.takeHon == 0
    requires forall t :: t in ms <==> exists i :: 0 <= i < |ms0| && Completes(s, ms0[i], t)
    ensures forall t :: t in ms <==> Turn(r, s, t)
  {
    forall t ensures t in ms <==> Turn(r, s, t) {
      OfferedIgnoresTaken(r, s, t);
      hide Offered, Takeable;
      var base := t.(takeHon := 0);
      if Turn(r, s, t) {
        assert base in ms0;
        var i :| 0 <= i < |ms0| && ms0[i] == base;
        assert Completes(s, ms0[i], t);
      }
      if t in ms {
        var i :| 0 <= i < |ms0| && Completes(s, ms0[i], t);
        assert ms0[i] in ms0;
        assert ms0[i] == base;
      }
    }
  }

  lemma OfferedIgnoresTaken(r: Rules, s: State, t: AdvancedMove)
    requires s.Shaped()
    ensures Offered(r, s, t.(takeHon := 0)) == Offered(r, s, t)
  {}

  // ---------------------------------------------------------------- applying a turn

  function FirstMove(t: AdvancedMove): Move {
    if t.onlyTaking then RemovePiece(t.takeHon)
    else if t.moveType.SetMove? then SetPiece(t.to) else MovePiece(t.from, t.to)
  }

  ghost function Apply(r: Rules, s: State, t: AdvancedMove): (u: State)
    requires s.Shaped()
    ensures u.Shaped()
  {
    var u := Step(r, s, FirstMove(t));
    if !t.onlyTaking && t.withTaking then Step(r, u, RemovePiece(t.takeHon)) else u
  }

  ghost predicate ApplyLegal(r: Rules, s: State, t: AdvancedMove)
    requires s.Shaped()
  {
    && Legal(r, s, FirstMove(t))
    && (!t.onlyTaking && t.withTaking ==> Legal(r, Step(r, s, FirstMove(t)), RemovePiece(t.takeHon)))
  }

  /** make_move_in_state: the turn is played on a copy. */
  method MakeMoveInState(r: Rules, s: GameState, t: AdvancedMove) returns (s2: GameState, legal: bool)
    requires s.View().Shaped()
    ensures fresh(s2) && s2.View() == Apply(r, s.View(), t)
    ensures legal == ApplyLegal(r, s.View(), t)
  {
    hide Step, Legal;
    s2 := new GameState.Copy(s);
    if !t.onlyTaking {
      if t.moveType.SetMove? {
        legal := s2.MakeMove(r, SetPiece(t.to));
      } else {
        legal := s2.MakeMove(r, MovePiece(t.from, t.to));
      }
      if t.withTaking {
        var taken := s2.MakeMove(r, RemovePiece(t.takeHon));
        legal := legal && taken;
      }
    } else {
      legal := s2.MakeMove(r, RemovePiece(t.takeHon));
    }
  }
}
