/** How the player looks a position up: the sector and the board word, both from the side of
    the player to move. */
module SolverView {
  import opened Bits
  import opened Collapse
  import opened Symmetry
  import opened BoardSymmetries
  import opened MillRules
  import opened Game
  import opened Ids
  import opened GameInvariant
  import opened GameSymmetry
  import Query

  /** The word of the points below n that hold c. */
  function Stones(b: seq<int>, c: int, n: nat): nat
    requires n <= |b|
  {
    if n == 0 then 0
    else if b[n - 1] == c then Or(Stones(b, c, n - 1), Pow2(n - 1)) else Stones(b, c, n - 1)
  }

  lemma {:induction false} StonesBit(b: seq<int>, c: int, n: nat, i: nat)
    requires n <= |b|
    ensures Bit(Stones(b, c, n), i) <==> i < n && b[i] == c
  {
    hide Or, Bit;
    if n == 0 {
      ZeroBit(i);
    } else {
      StonesBit(b, c, n - 1, i);
      OrBit(Stones(b, c, n - 1), Pow2(n - 1), i);
      Pow2Bit(n - 1, i);
    }
  }

  lemma StonesBelow(b: seq<int>, c: int, n: nat)
    requires n <= |b|
    ensures Stones(b, c, n) < Pow2(n)
  {
    forall i: nat | n <= i ensures !Bit(Stones(b, c, n), i) { StonesBit(b, c, n, i); }
    NoBitsAbove(Stones(b, c, n), n);
  }

  lemma {:induction false} OnesOfStones(b: seq<int>, c: int, n: nat)
    requires n <= |b|
    ensures Ones(Stones(b, c, n)) == CountUpTo(b, c, n)
  {
    assert Ones(0) == 0;
    hide Or, Pow2, Ones, Bit;
    if n > 0 {
      OnesOfStones(b, c, n - 1);
      StonesBelow(b, c, n - 1);
      if b[n - 1] == c { OnesWithBit(Stones(b, c, n - 1), n - 1); }
    }
  }

  lemma OnesWithBit(x: nat, k: nat)
    requires x < Pow2(k)
    ensures Ones(Or(x, Pow2(k))) == Ones(x) + 1
  {
    hide Or, Ones;
    ShlOne(k);
    OrIsSum(1, x, k);
    OnesSplit(1, x, k);
    assert Ones(1) == 1 by { OnesOfPow2(0); }
  }

  /** The solver's board word: the mover's stones low, the other side's above them. */
  function Key(s: State): nat
    requires s.Shaped()
  {
    Pack(24, Stones(s.board, s.side, 24), Stones(s.board, 1 - s.side, 24))
  }

  lemma {:induction false} PackBit(lo: nat, hi: nat, k: nat, j: nat)
    requires lo < Pow2(k)
    ensures Bit(Pack(k, lo, hi), j) <==> if j < k then Bit(lo, j) else Bit(hi, j - k)
  {
    hide Or, Bit, Shl, Pow2;
    OrIsSum(hi, lo, k);
    OrBit(lo, Shl(hi, k), j);
    ShlBit(hi, k, j);
    if j >= k { BitAbove(lo, k, j); }
  }

  // ---------------------------------------------------------------- the player's computation

  /** negate_board: the two 24-bit halves change places. */
  function NegateBoard(a: nat): nat {
    var mask24 := Pow2(24) - 1;
    Or(Shl(And(a, mask24), 24), Shr(And(a, Shl(mask24, 24)), 24))
  }

  lemma LowMaskBit(k: nat, i: nat)
    ensures Bit(Pow2(k) - 1, i) <==> i < k
  {
    if i < k {
      NotBit(0, k, i);
      ZeroBit(i);
    } else {
      BitAbove(Pow2(k) - 1, k, i);
    }
  }

  lemma NegateBit(a: nat, j: nat)
    ensures Bit(NegateBoard(a), j) <==> if j < 24 then Bit(a, j + 24) else j < 48 && Bit(a, j - 24)
  {
    hide Or, And, Bit, Shl, Shr, Pow2;
    var mask24 := Pow2(24) - 1;
    OrBit(Shl(And(a, mask24), 24), Shr(And(a, Shl(mask24, 24)), 24), j);
    ShlBit(And(a, mask24), 24, j);
    ShrBit(And(a, Shl(mask24, 24)), 24, j);
    AndBit(a, Shl(mask24, 24), j + 24);
    ShlBit(mask24, 24, j + 24);
    LowMaskBit(24, j);
    if j >= 24 {
      AndBit(a, mask24, j - 24);
      LowMaskBit(24, j - 24);
    }
  }

  /** Negating exchanges the two colours' words. */
  lemma NegateSwaps(w: nat, b: nat)
    requires w < Pow2(24) && b < Pow2(24)
    ensures NegateBoard(Pack(24, w, b)) == Pack(24, b, w)
  {
    hide NegateBoard, Bit, Pack, Pow2;
    forall j: nat ensures Bit(NegateBoard(Pack(24, w, b)), j) == Bit(Pack(24, b, w), j) {
      NegateBit(Pack(24, w, b), j);
      PackBit(b, w, 24, j);
      if j < 24 {
        PackBit(w, b, 24, j + 24);
      } else {
        PackBit(w, b, 24, j - 24);
        if j >= 48 { BitAbove(w, 24, j - 24); }
      }
    }
    BitsDetermine(NegateBoard(Pack(24, w, b)), Pack(24, b, w));
  }

  /** So negating twice changes no board. */
  lemma NegateTwice(a: nat)
    requires Black(24, a) < Pow2(24)
    ensures NegateBoard(NegateBoard(a)) == a
  {
    hide NegateBoard, White, Black, Pack, Pow2;
    PartsPack(24, a);
    WhiteBelow(a);
    NegateSwaps(White(24, a), Black(24, a));
    NegateSwaps(Black(24, a), White(24, a));
  }

  lemma WhiteBelow(a: nat)
    ensures White(24, a) < Pow2(24)
  {
    LowBound(a, 24);
  }

  /** The hash argument evaluate computes. */
  method BoardHash(s: State) returns (boardHash: nat)
    requires s.Shaped()
    ensures boardHash == Key(s)
  {
    hide Or, Bit, Pack, NegateBoard, Shl, Pow2;
    boardHash := 0;
    var i := 0;
    forall j: nat ensures !Bit(0, j) { ZeroBit(j); }
    while i < 24
      invariant 0 <= i <= 24
      invariant forall j: nat :: Bit(boardHash, j) <==> OnWord(s.board, i, j)
    {
      ghost var before := boardHash;
      if s.board[i] == 0 {
        boardHash := Or(boardHash, Pow2(i));
        forall j: nat ensures Bit(boardHash, j) <==> OnWord(s.board, i + 1, j) {
          OrBit(before, Pow2(i), j);
          Pow2Bit(i, j);
        }
      } else if s.board[i] == 1 {
        boardHash := Or(boardHash, Pow2(i + 24));
        forall j: nat ensures Bit(boardHash, j) <==> OnWord(s.board, i + 1, j) {
          OrBit(before, Pow2(i + 24), j);
          Pow2Bit(i + 24, j);
        }
      }
      i := i + 1;
    }
    WordIsPacked(s, boardHash);
    if s.side == 1 {
      StonesBelow(s.board, 0, 24);
      StonesBelow(s.board, 1, 24);
      NegateSwaps(Stones(s.board, 0, 24), Stones(s.board, 1, 24));
      boardHash := NegateBoard(boardHash);
    }
  }

  predicate OnWord(b: seq<int>, n: nat, j: nat)
    requires |b| == 24
  {
    (j < n && j < 24 && b[j] == 0) || (24 <= j < n + 24 && j < 48 && b[j - 24] == 1)
  }

  lemma WordIsPacked(s: State, word: nat)
    requires s.Shaped()
    requires forall j: nat :: Bit(word, j) <==> OnWord(s.board, 24, j)
    ensures word == Pack(24, Stones(s.board, 0, 24), Stones(s.board, 1, 24))
  {
    hide Bit, Pack, Pow2, Stones;
    var w, b := Stones(s.board, 0, 24), Stones(s.board, 1, 24);
    StonesBelow(s.board, 0, 24);
    forall j: nat ensures Bit(word, j) == Bit(Pack(24, w, b), j) {
      PackBit(w, b, 24, j);
      if j < 24 { StonesBit(s.board, 0, 24, j); } else { StonesBit(s.board, 1, 24, j - 24); }
    }
    BitsDetermine(word, Pack(24, w, b));
  }

  // ---------------------------------------------------------------- the sector

  /** get_sector's key. */
  function SectorOf(r: Rules, s: State): Id
    requires s.Shaped()
  {
    var id := Id(s.stones[0], s.stones[1], r.maxKSZ - s.placed[0], r.maxKSZ - s.placed[1]);
    if s.side == 1 then id.Negated() else id
  }

  // ---------------------------------------------------------------- what the lookup depends on

  lemma StonesShown(c: Recast, b: seq<int>, v: int)
    requires c.Valid() && |b| == 24
    ensures BOARD.Valid() && |BOARD.ops| == 16
    ensures Stones(ShownBoard(c, b), Hue(c, v), 24) == BOARD.T(c.op, Stones(b, v, 24))
  {
    BoardIsGroup();
    var x, y := Stones(ShownBoard(c, b), Hue(c, v), 24), BOARD.T(c.op, Stones(b, v, 24));
    hide Bit, Pow2, Stones, Group.T, Group.Valid, Inverse, To, Hue, ShownBoard;
    forall j: nat ensures Bit(x, j) == Bit(y, j) {
      StonesBit(ShownBoard(c, b), Hue(c, v), 24, j);
      TBit(BOARD, c.op, Stones(b, v, 24), j);
      if j < 24 {
        VictimAt(c, b, v, To(Inverse(c), j));
        ToInverse(c, j);
        PointBack(c, j);
        StonesBit(b, v, 24, To(Inverse(c), j));
      }
    }
    BitsDetermine(x, y);
  }

  lemma PointBack(c: Recast, y: Point)
    requires c.Valid() && BOARD.Valid()
    ensures c.op < |BOARD.ops| && y < |BOARD.ops[BOARD.inv[c.op]]| && BOARD.ops[BOARD.inv[c.op]][y] == To(Inverse(c), y)
    ensures BOARD.n == 24
  {}

  /** Seen through any symmetry, with or without exchanging the colours, a position is looked up
      in the same sector and under the transformed board word. */
  lemma LookupShown(r: Rules, c: Recast, s: State)
    requires c.Valid() && s.Shaped()
    ensures SectorOf(r, Shown(c, s)) == SectorOf(r, s)
    ensures BOARD.Valid() && |BOARD.ops| == 16 && Key(Shown(c, s)) == BOARD.T48(c.op, Key(s))
  {
    hide Stones, Group.T, Group.Valid, Shown, Hue, ShownBoard, Pack, White, Black, Pow2;
    BoardIsGroup();
    SectorShown(r, c, s);
    StonesShown(c, s.board, s.side);
    StonesShown(c, s.board, 1 - s.side);
    VictimShown(c, s);
    MoverShown(c, s);
    StonesBelow(s.board, s.side, 24);
    PackParts(24, Stones(s.board, s.side, 24), Stones(s.board, 1 - s.side, 24));
  }

  lemma MoverShown(c: Recast, s: State)
    requires c.Valid() && s.Shaped()
    ensures Shown(c, s).side == Hue(c, s.side)
  {
    hide ShownBoard, Hue;
  }

  lemma SectorShown(r: Rules, c: Recast, s: State)
    requires c.Valid() && s.Shaped()
    ensures SectorOf(r, Shown(c, s)) == SectorOf(r, s)
  {
    hide ShownBoard;
  }

  /** The board word is a board with the sector's stone counts. */
  lemma KeyIsBoard(r: Rules, s: State)
    requires s.Shaped() && Consistent(r, s)
    ensures IsBoard(24, s.stones[s.side], s.stones[1 - s.side], Key(s))
    ensures SectorOf(r, s).W == s.stones[s.side] && SectorOf(r, s).B == s.stones[1 - s.side]
  {
    hide Stones, Pack, White, Black, Pow2, Ones, And, CountUpTo;
    var w, b := Stones(s.board, s.side, 24), Stones(s.board, 1 - s.side, 24);
    StonesBelow(s.board, s.side, 24);
    StonesBelow(s.board, 1 - s.side, 24);
    OnesOfStones(s.board, s.side, 24);
    OnesOfStones(s.board, 1 - s.side, 24);
    PackParts(24, w, b);
    Apart(s.board, s.side);
  }

  lemma Apart(b: seq<int>, c: int)
    requires |b| == 24 && (c == 0 || c == 1)
    ensures And(Stones(b, c, 24), Stones(b, 1 - c, 24)) == 0
  {
    var w, d := Stones(b, c, 24), Stones(b, 1 - c, 24);
    hide Stones, And, Bit;
    forall j: nat ensures Bit(And(w, d), j) == Bit(0, j) {
      AndBit(w, d, j);
      StonesBit(b, c, 24, j);
      StonesBit(b, 1 - c, 24, j);
      ZeroBit(j);
    }
    BitsDetermine(And(w, d), 0);
  }

  /** The same position as a query to the Rust side. */
  function QueryOf(r: Rules, s: State): Query.PerfectQuery
    requires s.Shaped() && s.placed[0] <= r.maxKSZ && s.placed[1] <= r.maxKSZ
  {
    Query.PerfectQuery(Stones(s.board, 0, 24), Stones(s.board, 1, 24), r.maxKSZ - s.placed[0], r.maxKSZ - s.placed[1],
                       s.side == 1, s.kle)
  }

  /** The C++ player and the Rust database look a position up in the same place. */
  lemma SameLookup(r: Rules, s: State)
    requires s.Shaped() && Consistent(r, s) && r.maxKSZ <= 12
    ensures var q := QueryOf(r, s);
            && q.Valid() && q.Board() == Key(s)
            && SectorOf(r, s) == Id(q.Sector().whiteOnBoard, q.Sector().blackOnBoard,
                                    q.Sector().whiteInHand, q.Sector().blackInHand)
  {
    StonesBelow(s.board, 0, 24);
    StonesBelow(s.board, 1, 24);
    OnesOfStones(s.board, 0, 24);
    OnesOfStones(s.board, 1, 24);
    Apart(s.board, 0);
    Query.FoldIsBoard(QueryOf(r, s));
    hide Stones, Pack, Pow2, Ones, And, CountUpTo, Or, Shl;
  }
}
