/** How far apart two puzzle positions are: a pseudometric on positions up to symmetry and to
    which colour is to move. */
module Similarity {
  import opened Bits
  import opened Subsets
  import opened Symmetry
  import opened PuzzleSymmetries
  import Query

  datatype Fingerprint = Fingerprint(whiteBits: nat, blackBits: nat, whiteInHand: nat, blackInHand: nat,
          sideToMove: nat)
  {

    /** Both words come from 24 board characters. */
    predicate OnBoard() { whiteBits < Pow2(24) && blackBits < Pow2(24) }

    /** solver_normalised: the side to move first. */
    function Solver(): Sides {
      if sideToMove == 0 then Sides(whiteBits, blackBits, whiteInHand, blackInHand)
      else Sides(blackBits, whiteBits, blackInHand, whiteInHand)
    }
  }

  datatype Sides = Sides(solver: nat, defender: nat, solverHand: nat, defenderHand: nat)

  // ---------------------------------------------------------------- counting differing points

  lemma {:induction false} XorCommutes(x: nat, y: nat)
    ensures Xor(x, y) == Xor(y, x)
  {
    forall i: nat ensures Bit(Xor(x, y), i) == Bit(Xor(y, x), i) {
      XorBit(x, y, i);
      XorBit(y, x, i);
    }
    BitsDetermine(Xor(x, y), Xor(y, x));
  }

  lemma XorBelow(x: nat, y: nat, n: nat)
    requires x < Pow2(n) && y < Pow2(n)
    ensures Xor(x, y) < Pow2(n)
  {
    forall i: nat | n <= i ensures !Bit(Xor(x, y), i) {
      XorBit(x, y, i);
      BitAbove(x, n, i);
      BitAbove(y, n, i);
    }
    NoBitsAbove(Xor(x, y), n);
  }

  lemma {:induction false} OnesZero(x: nat)
    ensures Ones(x) == 0 <==> x == 0
  {
    if x > 0 { OnesZero(x / 2); }
  }

  lemma XorZero(x: nat, y: nat)
    ensures Xor(x, y) == 0 <==> x == y
  {
    if x == y { XorSelf(x); }
    if Xor(x, y) == 0 {
      forall i: nat ensures Bit(x, i) == Bit(y, i) {
        XorBit(x, y, i);
        ZeroBit(i);
      }
      BitsDetermine(x, y);
    }
  }

  lemma {:induction false} OnesTriangle(x: nat, y: nat, z: nat)
    ensures Ones(Xor(x, z)) <= Ones(Xor(x, y)) + Ones(Xor(y, z))
    decreases x + y + z
  {
    if x + y + z > 0 {
      OnesTriangle(x / 2, y / 2, z / 2);
      XorStep(x, z);
      XorStep(x, y);
      XorStep(y, z);
      OnesStep(Xor(x, z));
      OnesStep(Xor(x, y));
      OnesStep(Xor(y, z));
      hide Xor, Ones;
    }
  }

  /** Symmetries keep the number of differing points. */
  lemma OnesMoved(g: Group, i: nat, x: nat, y: nat)
    requires g.Valid() && i < |g.ops| && x < Pow2(g.n) && y < Pow2(g.n)
    ensures Ones(Xor(g.T(i, x), g.T(i, y))) == Ones(Xor(x, y))
  {
    TXor(g, i, x, y);
    XorBelow(x, y, g.n);
    TFacts(g, i, Xor(x, y));
  }

  // ---------------------------------------------------------------- the distance

  /** The points that differ when the right position is seen through operation i. */
  function Mismatch(g: Group, i: nat, l: Sides, r: Sides): nat
    requires i < |g.ops|
  {
    Ones(Xor(l.solver, g.T(i, r.solver))) + Ones(Xor(l.defender, g.T(i, r.defender)))
  }

  function NearestUpTo(g: Group, l: Sides, r: Sides, k: nat): nat
    requires 1 <= k <= |g.ops|
  {
    if k == 1 then Mismatch(g, 0, l, r)
    else
      var m := NearestUpTo(g, l, r, k - 1);
      if Mismatch(g, k - 1, l, r) < m then Mismatch(g, k - 1, l, r) else m
  }

  lemma {:induction false} NearestIs(g: Group, l: Sides, r: Sides, k: nat) returns (op: nat)
    requires 1 <= k <= |g.ops|
    ensures op < k && NearestUpTo(g, l, r, k) == Mismatch(g, op, l, r)
    ensures forall i: nat :: i < k ==> NearestUpTo(g, l, r, k) <= Mismatch(g, i, l, r)
  {
    hide Mismatch;
    op := 0;
    if k > 1 {
      op := NearestIs(g, l, r, k - 1);
      if Mismatch(g, k - 1, l, r) < NearestUpTo(g, l, r, k - 1) { op := k - 1; }
    }
  }

  function HandDistance(l: Sides, r: Sides): int {
    Abs(l.solverHand - r.solverHand) + Abs(l.defenderHand - r.defenderHand)
  }

  /** minimum_position_distance, over any group of symmetries. */
  function Distance(g: Group, left: Fingerprint, right: Fingerprint): int
    requires |g.ops| > 0
  {
    HandDistance(left.Solver(), right.Solver()) + NearestUpTo(g, left.Solver(), right.Solver(), |g.ops|)
  }

  // ---------------------------------------------------------------- the value of the distance

  /** The points where a word and the word a permutation takes to it differ: p of y goes to row[p]. */
  ghost function Differing(row: seq<nat>, x: nat, y: nat): set<nat> {
    set p: nat | p < |row| && Bit(x, row[p]) != Bit(y, p)
  }

  ghost function OnesBelow(x: nat, n: nat): set<nat> {
    set p: nat | p < n && Bit(x, p)
  }

  /** How many of the n low bits are set, from the top. */
  function CountBelow(x: nat, n: nat): nat {
    if n == 0 then 0 else CountBelow(x, n - 1) + if Bit(x, n - 1) then 1 else 0
  }

  lemma {:induction false} CountBelowIs(x: nat, n: nat)
    ensures |OnesBelow(x, n)| == CountBelow(x, n)
  {
    hide Bit;
    if n == 0 {
      assert OnesBelow(x, 0) == {};
    } else {
      CountBelowIs(x, n - 1);
      assert OnesBelow(x, n) == OnesBelow(x, n - 1) + if Bit(x, n - 1) then {n - 1} else {};
    }
  }

  lemma {:induction false} CountBelowStep(x: nat, n: nat)
    requires n > 0
    ensures CountBelow(x, n) == x % 2 + CountBelow(x / 2, n - 1)
  {
    if n > 1 { CountBelowStep(x, n - 1); }
  }

  lemma {:induction false} OnesAreBelow(x: nat, n: nat)
    requires x < Pow2(n)
    ensures Ones(x) == CountBelow(x, n)
    decreases n
  {
    if n > 0 {
      OnesAreBelow(x / 2, n - 1);
      CountBelowStep(x, n);
      OnesStep(x);
    }
  }

  /** The population count of a difference is the number of points that differ. */
  lemma DifferenceIs(g: Group, i: nat, x: nat, y: nat)
    requires g.Valid() && i < |g.ops| && x < Pow2(g.n) && y < Pow2(g.n)
    ensures Ones(Xor(x, g.T(i, y))) == |Differing(g.ops[i], x, y)|
  {
    hide Group.Valid, Group.T, Bit, Xor, Ones, Pow2;
    var j := g.inv[i];
    RowParts(g, i);
    TwistBack(g, i, x, y);
    var d := Xor(y, g.T(j, x));
    TFacts(g, j, x);
    XorBelow(y, g.T(j, x), g.n);
    OnesAreBelow(d, g.n);
    CountBelowIs(d, g.n);
    forall p: nat | p < g.n ensures Bit(d, p) <==> Bit(x, g.ops[i][p]) != Bit(y, p) {
      XorBit(y, g.T(j, x), p);
      TBit(g, j, x, p);
    }
    assert OnesBelow(d, g.n) == Differing(g.ops[i], x, y);
  }

  lemma RowParts(g: Group, i: nat)
    requires g.Valid() && i < |g.ops|
    ensures |g.inv| == |g.ops| && g.inv[i] < |g.ops| && g.inv[g.inv[i]] == i && |g.ops[i]| == g.n
  {}

  /** The stones and the hand of the side to move, and those of the other side. */
  function OwnStones(p: Fingerprint): nat { if p.sideToMove == 0 then p.whiteBits else p.blackBits }

  function OtherStones(p: Fingerprint): nat { if p.sideToMove == 0 then p.blackBits else p.whiteBits }

  function OwnHand(p: Fingerprint): int { if p.sideToMove == 0 then p.whiteInHand else p.blackInHand }

  function OtherHand(p: Fingerprint): int { if p.sideToMove == 0 then p.blackInHand else p.whiteInHand }

  /** The differing hands and points when q is seen through operation i. */
  ghost function DifferenceThrough(g: Group, i: nat, p: Fingerprint, q: Fingerprint): int
    requires i < |g.ops|
  {
    Abs(OwnHand(p) - OwnHand(q)) + Abs(OtherHand(p) - OtherHand(q))
    + |Differing(g.ops[i], OwnStones(p), OwnStones(q))| + |Differing(g.ops[i], OtherStones(p), OtherStones(q))|
  }

  /** The distance is the least such difference over the operations. */
  lemma DistanceIs(g: Group, p: Fingerprint, q: Fingerprint) returns (op: nat)
    requires g.Valid() && g.n == 24 && p.OnBoard() && q.OnBoard()
    ensures |g.ops| > 0 && op < |g.ops| && Distance(g, p, q) == DifferenceThrough(g, op, p, q)
    ensures forall i: nat :: i < |g.ops| ==> Distance(g, p, q) <= DifferenceThrough(g, i, p, q)
  {
    hide Group.Valid, Mismatch, Differing, NearestUpTo, Pow2;
    Nonempty(g);
    op := NearestIs(g, p.Solver(), q.Solver(), |g.ops|);
    forall i: nat | i < |g.ops|
      ensures HandDistance(p.Solver(), q.Solver()) + Mismatch(g, i, p.Solver(), q.Solver())
           == DifferenceThrough(g, i, p, q)
    {
      ThroughIs(g, i, p, q);
    }
  }

  lemma ThroughIs(g: Group, i: nat, p: Fingerprint, q: Fingerprint)
    requires g.Valid() && g.n == 24 && p.OnBoard() && q.OnBoard() && i < |g.ops|
    ensures HandDistance(p.Solver(), q.Solver()) + Mismatch(g, i, p.Solver(), q.Solver())
         == DifferenceThrough(g, i, p, q)
  {
    hide Group.Valid, Group.T, Differing, Xor, Ones, Pow2;
    DifferenceIs(g, i, p.Solver().solver, q.Solver().solver);
    DifferenceIs(g, i, p.Solver().defender, q.Solver().defender);
  }

  predicate Fits(g: Group, s: Sides) { s.solver < Pow2(g.n) && s.defender < Pow2(g.n) }

  lemma SolverFits(g: Group, p: Fingerprint)
    requires g.n == 24 && p.OnBoard()
    ensures Fits(g, p.Solver())
  {
    hide Pow2;
  }

  lemma MismatchBack(g: Group, i: nat, l: Sides, r: Sides)
    requires g.Valid() && i < |g.ops| && Fits(g, l) && Fits(g, r)
    ensures g.inv[i] < |g.ops| && Mismatch(g, g.inv[i], r, l) == Mismatch(g, i, l, r)
  {
    TwistBack(g, i, l.solver, r.solver);
    TwistBack(g, i, l.defender, r.defender);
    hide Group.Valid, Ones, Xor, Pow2;
  }

  lemma TwistBack(g: Group, i: nat, x: nat, y: nat)
    requires g.Valid() && i < |g.ops| && x < Pow2(g.n) && y < Pow2(g.n)
    ensures g.inv[i] < |g.ops| && Ones(Xor(y, g.T(g.inv[i], x))) == Ones(Xor(x, g.T(i, y)))
  {
    TFacts(g, i, y);
    OnesMoved(g, g.inv[i], x, g.T(i, y));
    TInverse(g, i, y);
    XorCommutes(y, g.T(g.inv[i], x));
  }

  lemma MismatchTriangle(g: Group, i: nat, j: nat, a: Sides, b: Sides, c: Sides)
    requires g.Valid() && i < |g.ops| && j < |g.ops| && Fits(g, a) && Fits(g, b) && Fits(g, c)
    ensures Mul(g, i, j) < |g.ops|
    ensures Mismatch(g, Mul(g, i, j), a, c) <= Mismatch(g, i, a, b) + Mismatch(g, j, b, c)
  {
    TwistTriangle(g, i, j, a.solver, b.solver, c.solver);
    TwistTriangle(g, i, j, a.defender, b.defender, c.defender);
    hide Group.Valid, Ones, Xor, Pow2, Mul;
  }

  lemma TwistTriangle(g: Group, i: nat, j: nat, x: nat, y: nat, z: nat)
    requires g.Valid() && i < |g.ops| && j < |g.ops| && x < Pow2(g.n) && y < Pow2(g.n) && z < Pow2(g.n)
    ensures Mul(g, i, j) < |g.ops|
    ensures Ones(Xor(x, g.T(Mul(g, i, j), z))) <= Ones(Xor(x, g.T(i, y))) + Ones(Xor(y, g.T(j, z)))
  {
    TCompose(g, Mul(g, i, j), i, j, z);
    TFacts(g, j, z);
    OnesMoved(g, i, y, g.T(j, z));
    OnesTriangle(x, g.T(i, y), g.T(i, g.T(j, z)));
  }

  lemma Nonempty(g: Group)
    requires g.Valid()
    ensures |g.ops| > 0
  {}

  /** The distance is symmetric. */
  lemma DistanceSymmetric(g: Group, p: Fingerprint, q: Fingerprint)
    requires g.Valid() && g.n == 24 && p.OnBoard() && q.OnBoard()
    ensures |g.ops| > 0 && Distance(g, p, q) == Distance(g, q, p)
  {
    Nonempty(g);
    NearestNotAbove(g, p, q);
    NearestNotAbove(g, q, p);
    hide Group.Valid, Mismatch;
  }

  lemma NearestNotAbove(g: Group, p: Fingerprint, q: Fingerprint)
    requires g.Valid() && g.n == 24 && p.OnBoard() && q.OnBoard() && |g.ops| > 0
    ensures NearestUpTo(g, q.Solver(), p.Solver(), |g.ops|) <= NearestUpTo(g, p.Solver(), q.Solver(), |g.ops|)
  {
    hide Group.Valid, Mismatch, Fits, Fingerprint.Solver, Fingerprint.OnBoard;
    SolverFits(g, p);
    SolverFits(g, q);
    var i := NearestIs(g, p.Solver(), q.Solver(), |g.ops|);
    MismatchBack(g, i, p.Solver(), q.Solver());
    var j := NearestIs(g, q.Solver(), p.Solver(), |g.ops|);
  }

  /** The triangle inequality holds across the minimum over symmetries. */
  lemma DistanceTriangle(g: Group, p: Fingerprint, q: Fingerprint, r: Fingerprint)
    requires g.Valid() && g.n == 24 && p.OnBoard() && q.OnBoard() && r.OnBoard()
    ensures |g.ops| > 0 && Distance(g, p, r) <= Distance(g, p, q) + Distance(g, q, r)
  {
    hide Group.Valid, Mismatch, Fits, Fingerprint.Solver, Fingerprint.OnBoard, Mul, NearestUpTo;
    Nonempty(g);
    SolverFits(g, p);
    SolverFits(g, q);
    SolverFits(g, r);
    var i := NearestIs(g, p.Solver(), q.Solver(), |g.ops|);
    var j := NearestIs(g, q.Solver(), r.Solver(), |g.ops|);
    MismatchTriangle(g, i, j, p.Solver(), q.Solver(), r.Solver());
    var k := NearestIs(g, p.Solver(), r.Solver(), |g.ops|);
  }

  lemma DistanceNonnegative(g: Group, p: Fingerprint, q: Fingerprint)
    requires |g.ops| > 0
    ensures Distance(g, p, q) >= 0
  {
    hide Mismatch;
  }

  /** Operation i takes r's stones to l's. */
  predicate BoardsMatch(g: Group, i: nat, l: Sides, r: Sides)
    requires i < |g.ops|
  {
    l.solver == g.T(i, r.solver) && l.defender == g.T(i, r.defender)
  }

  predicate HandsAgree(l: Sides, r: Sides) {
    l.solverHand == r.solverHand && l.defenderHand == r.defenderHand
  }

  /** Operation i takes r's stones to l's, and the hands agree. */
  predicate Matches(g: Group, i: nat, l: Sides, r: Sides)
    requires i < |g.ops|
  {
    BoardsMatch(g, i, l, r) && HandsAgree(l, r)
  }

  lemma MismatchZero(g: Group, i: nat, l: Sides, r: Sides)
    requires i < |g.ops|
    ensures HandDistance(l, r) + Mismatch(g, i, l, r) == 0 <==> Matches(g, i, l, r)
  {
    XorZero(l.solver, g.T(i, r.solver));
    XorZero(l.defender, g.T(i, r.defender));
    OnesZero(Xor(l.solver, g.T(i, r.solver)));
    OnesZero(Xor(l.defender, g.T(i, r.defender)));
    hide Xor, Ones, Group.T;
  }

  /** Distance zero: the same position up to symmetry and colour. */
  lemma DistanceZero(g: Group, p: Fingerprint, q: Fingerprint)
    requires |g.ops| > 0
    ensures Distance(g, p, q) == 0 <==> exists i: nat :: i < |g.ops| && Matches(g, i, p.Solver(), q.Solver())
  {
    var l, r := p.Solver(), q.Solver();
    var op := NearestIs(g, l, r, |g.ops|);
    MismatchZero(g, op, l, r);
    hide Mismatch, Matches, NearestUpTo, Fingerprint.Solver;
    if i: nat :| i < |g.ops| && Matches(g, i, p.Solver(), q.Solver()) {
      MismatchZero(g, i, l, r);
    }
  }

  // ---------------------------------------------------------------- the canonical key

  function KeyAt(g: Group, i: nat, s: Sides): nat
    requires i < |g.ops|
  {
    Or(Or(Or(g.T(i, s.solver), Shl(g.T(i, s.defender), 24)), Shl(s.solverHand, 48)), Shl(s.defenderHand, 52))
  }

  function KeyUpTo(g: Group, s: Sides, k: nat): nat
    requires 1 <= k <= |g.ops|
  {
    if k == 1 then KeyAt(g, 0, s)
    else
      var m := KeyUpTo(g, s, k - 1);
      if KeyAt(g, k - 1, s) < m then KeyAt(g, k - 1, s) else m
  }

  /** canonical_solver_position_key. */
  function SolverKey(g: Group, p: Fingerprint): nat
    requires |g.ops| > 0
  {
    KeyUpTo(g, p.Solver(), |g.ops|)
  }

  lemma {:induction false} KeyIs(g: Group, s: Sides, k: nat) returns (op: nat)
    requires 1 <= k <= |g.ops|
    ensures op < k && KeyUpTo(g, s, k) == KeyAt(g, op, s)
    ensures forall i: nat :: i < k ==> KeyUpTo(g, s, k) <= KeyAt(g, i, s)
  {
    hide KeyAt;
    op := 0;
    if k > 1 {
      op := KeyIs(g, s, k - 1);
      if KeyAt(g, k - 1, s) < KeyUpTo(g, s, k - 1) { op := k - 1; }
    }
  }

  /** The part of the key above the board: the defender's count is or-ed in four bits further up,
      over whatever the solver's count has there. */
  function Hands(s: Sides): nat { Or(s.solverHand, Shl(s.defenderHand, 4)) }

  lemma OrAssociates(x: nat, y: nat, z: nat)
    ensures Or(Or(x, y), z) == Or(x, Or(y, z))
  {
    hide Or, Bit;
    forall i: nat ensures Bit(Or(Or(x, y), z), i) == Bit(Or(x, Or(y, z)), i) {
      OrBit(Or(x, y), z, i);
      OrBit(x, y, i);
      OrBit(x, Or(y, z), i);
      OrBit(y, z, i);
    }
    BitsDetermine(Or(Or(x, y), z), Or(x, Or(y, z)));
  }

  lemma ShlOfOr(x: nat, y: nat, k: nat)
    ensures Shl(Or(x, y), k) == Or(Shl(x, k), Shl(y, k))
  {
    hide Or, Bit, Shl;
    forall i: nat ensures Bit(Shl(Or(x, y), k), i) == Bit(Or(Shl(x, k), Shl(y, k)), i) {
      ShlBit(Or(x, y), k, i);
      OrBit(Shl(x, k), Shl(y, k), i);
      ShlBit(x, k, i);
      ShlBit(y, k, i);
      if i >= k { OrBit(x, y, i - k); }
    }
    BitsDetermine(Shl(Or(x, y), k), Or(Shl(x, k), Shl(y, k)));
  }

  lemma NestedFields(w: nat, b: nat, sh: nat, dh: nat)
    requires w < Pow2(24) && b < Pow2(24)
    ensures Or(Or(Or(w, Shl(b, 24)), Shl(sh, 48)), Shl(dh, 52))
         == Query.Cat(Or(sh, Shl(dh, 4)), Query.Cat(b, w, 24), 48)
    ensures Query.Cat(b, w, 24) < Pow2(48)
  {
    hide Or, Shl, Pow2;
    OrIsSum(b, w, 24);
    Query.CatBound(b, w, 24, 24);
    OrAssociates(Query.Cat(b, w, 24), Shl(sh, 48), Shl(dh, 52));
    Query.ShlShl(dh, 4, 48);
    ShlOfOr(sh, Shl(dh, 4), 48);
    OrIsSum(Or(sh, Shl(dh, 4)), Query.Cat(b, w, 24), 48);
  }

  /** The board fills the low 48 bits of the key exactly, and the hands the rest. */
  lemma KeyFields(g: Group, i: nat, s: Sides)
    requires g.Valid() && g.n == 24 && i < |g.ops|
    ensures KeyAt(g, i, s) == Query.Cat(Hands(s), Query.Cat(g.T(i, s.defender), g.T(i, s.solver), 24), 48)
    ensures Query.Cat(g.T(i, s.defender), g.T(i, s.solver), 24) < Pow2(48)
    ensures g.T(i, s.solver) < Pow2(24) && g.T(i, s.defender) < Pow2(24)
  {
    TFacts(g, i, s.solver);
    TFacts(g, i, s.defender);
    hide Or, Shl, Pow2, Group.T, Group.Valid, Query.Cat;
    NestedFields(g.T(i, s.solver), g.T(i, s.defender), s.solverHand, s.defenderHand);
  }

  lemma CatInjective(h1: nat, l1: nat, h2: nat, l2: nat, k: nat)
    requires l1 < Pow2(k) && l2 < Pow2(k) && Query.Cat(h1, l1, k) == Query.Cat(h2, l2, k)
    ensures h1 == h2 && l1 == l2
  {
    Query.CatParts(h1, l1, k);
    Query.CatParts(h2, l2, k);
  }

  lemma KeyDetermines(g: Group, i: nat, l: Sides, j: nat, r: Sides)
    requires g.Valid() && g.n == 24 && i < |g.ops| && j < |g.ops| && KeyAt(g, i, l) == KeyAt(g, j, r)
    ensures g.T(i, l.solver) == g.T(j, r.solver) && g.T(i, l.defender) == g.T(j, r.defender)
    ensures Hands(l) == Hands(r)
  {
    hide KeyAt, Query.Cat, Pow2, Group.T, Group.Valid, Hands;
    KeyFields(g, i, l);
    KeyFields(g, j, r);
    var bl := Query.Cat(g.T(i, l.defender), g.T(i, l.solver), 24);
    var br := Query.Cat(g.T(j, r.defender), g.T(j, r.solver), 24);
    CatInjective(Hands(l), bl, Hands(r), br, 48);
    CatInjective(g.T(i, l.defender), g.T(i, l.solver), g.T(j, r.defender), g.T(j, r.solver), 24);
  }

  /** A position with a matching board and the same hand field reaches every key of the other. */
  lemma KeyNotAbove(g: Group, i: nat, l: Sides, r: Sides)
    requires g.Valid() && g.n == 24 && |g.ops| > 0 && i < |g.ops| && BoardsMatch(g, i, l, r) && Hands(l) == Hands(r)
    ensures KeyUpTo(g, r, |g.ops|) <= KeyUpTo(g, l, |g.ops|)
  {
    hide KeyAt, KeyUpTo, Hands, Group.T, Query.Cat, Pow2, Group.Valid, Group.Composes;
    var j := KeyIs(g, l, |g.ops|);
    var k := MulIndex(g, j, i);
    TCompose(g, k, j, i, r.solver);
    TCompose(g, k, j, i, r.defender);
    KeyFields(g, j, l);
    KeyFields(g, k, r);
    var m := KeyIs(g, r, |g.ops|);
  }

  lemma MulIndex(g: Group, i: nat, j: nat) returns (k: nat)
    requires g.Valid() && i < |g.ops| && j < |g.ops|
    ensures k < |g.ops| && g.Composes(k, i, j)
  {
    k := Mul(g, i, j);
  }

  lemma MatchesBack(g: Group, i: nat, l: Sides, r: Sides)
    requires g.Valid() && i < |g.ops| && Fits(g, r) && BoardsMatch(g, i, l, r)
    ensures g.inv[i] < |g.ops| && BoardsMatch(g, g.inv[i], r, l)
  {
    TInverse(g, i, r.solver);
    TInverse(g, i, r.defender);
  }

  /** Some symmetry takes q's board to p's. */
  ghost predicate SameBoards(g: Group, p: Fingerprint, q: Fingerprint) {
    exists i: nat :: i < |g.ops| && BoardsMatch(g, i, p.Solver(), q.Solver())
  }

  /** Two positions have one canonical key exactly when their boards are symmetric and their hands
      give one field, whatever the hand counts. */
  lemma SameKeyIff(g: Group, p: Fingerprint, q: Fingerprint)
    requires g.Valid() && g.n == 24 && p.OnBoard() && q.OnBoard()
    ensures |g.ops| > 0
    ensures SolverKey(g, p) == SolverKey(g, q) <==> Hands(p.Solver()) == Hands(q.Solver()) && SameBoards(g, p, q)
  {
    hide KeyUpTo, BoardsMatch, Group.Valid, Hands, Fits, Fingerprint.OnBoard, Fingerprint.Solver;
    Nonempty(g);
    SolverFits(g, p);
    SolverFits(g, q);
    var l, r := p.Solver(), q.Solver();
    if Hands(l) == Hands(r) && SameBoards(g, p, q) {
      var i: nat :| i < |g.ops| && BoardsMatch(g, i, l, r);
      KeyNotAbove(g, i, l, r);
      MatchesBack(g, i, l, r);
      KeyNotAbove(g, g.inv[i], r, l);
    }
    if SolverKey(g, p) == SolverKey(g, q) {
      SameKeyMatches(g, l, r);
    }
  }

  lemma SameKeyMatches(g: Group, l: Sides, r: Sides)
    requires g.Valid() && g.n == 24 && |g.ops| > 0 && Fits(g, l) && Fits(g, r)
    requires KeyUpTo(g, l, |g.ops|) == KeyUpTo(g, r, |g.ops|)
    ensures Hands(l) == Hands(r) && exists i: nat :: i < |g.ops| && BoardsMatch(g, i, l, r)
  {
    hide KeyUpTo, KeyAt, Hands;
    var i := KeyIs(g, l, |g.ops|);
    var j := KeyIs(g, r, |g.ops|);
    KeyDetermines(g, i, l, j, r);
    TInverse(g, i, l.solver);
    TInverse(g, i, l.defender);
    var k := Mul(g, g.inv[i], j);
    TCompose(g, k, g.inv[i], j, r.solver);
    TCompose(g, k, g.inv[i], j, r.defender);
    assert BoardsMatch(g, k, l, r);
  }

  /** What could go wrong between distance and key: one field for two pairs of hands, on
      symmetric boards. */
  ghost predicate HandsCollide(g: Group, p: Fingerprint, q: Fingerprint) {
    && Hands(p.Solver()) == Hands(q.Solver()) && SameBoards(g, p, q)
    && !HandsAgree(p.Solver(), q.Solver())
  }

  /** Distance zero and equal canonical keys say the same of two positions, unless their boards are
      symmetric and different hands share one field. */
  lemma ZeroMeansSameKeyIff(g: Group, p: Fingerprint, q: Fingerprint)
    requires g.Valid() && g.n == 24 && p.OnBoard() && q.OnBoard()
    ensures |g.ops| > 0
    ensures (Distance(g, p, q) == 0 <==> SolverKey(g, p) == SolverKey(g, q)) <==> !HandsCollide(g, p, q)
    ensures Distance(g, p, q) == 0 ==> SolverKey(g, p) == SolverKey(g, q)
  {
    Nonempty(g);
    SameKeyIff(g, p, q);
    DistanceZero(g, p, q);
    hide Distance, SolverKey, Group.Valid, Hands, BoardsMatch, Fingerprint.OnBoard, Fingerprint.Solver;
    if i: nat :| i < |g.ops| && Matches(g, i, p.Solver(), q.Solver()) {
      assert SameBoards(g, p, q);
      SameHandField(p.Solver(), q.Solver());
    }
    if SameBoards(g, p, q) && HandsAgree(p.Solver(), q.Solver()) {
      var i: nat :| i < |g.ops| && BoardsMatch(g, i, p.Solver(), q.Solver());
      assert Matches(g, i, p.Solver(), q.Solver());
    }
  }

  lemma SameHandField(l: Sides, r: Sides)
    requires HandsAgree(l, r)
    ensures Hands(l) == Hands(r)
  {}

  /** Hand counts fit the key's four-bit fields. */
  predicate HandsFit(s: Sides) { s.solverHand < 16 && s.defenderHand < 16 }

  lemma FittingHandsAgree(l: Sides, r: Sides)
    requires HandsFit(l) && HandsFit(r) && Hands(l) == Hands(r)
    ensures HandsAgree(l, r)
  {
    Query.SmallCount();
    OrIsSum(l.defenderHand, l.solverHand, 4);
    OrIsSum(r.defenderHand, r.solverHand, 4);
    hide Or, Shl, Pow2;
    CatInjective(l.defenderHand, l.solverHand, r.defenderHand, r.solverHand, 4);
  }

  /** With hands below sixteen, as in every variant, the two always say the same. */
  lemma ZeroIffSameKey(g: Group, p: Fingerprint, q: Fingerprint)
    requires g.Valid() && g.n == 24 && p.OnBoard() && q.OnBoard()
    requires HandsFit(p.Solver()) && HandsFit(q.Solver())
    ensures |g.ops| > 0 && (Distance(g, p, q) == 0 <==> SolverKey(g, p) == SolverKey(g, q))
  {
    ZeroMeansSameKeyIff(g, p, q);
    hide Distance, SolverKey, Group.Valid, SameBoards, HandsAgree, HandsFit, Hands;
    if HandsCollide(g, p, q) { FittingHandsAgree(p.Solver(), q.Solver()); }
  }

  /** Sixteen stones in one hand collide with one in the other. */
  lemma KeyOverflows(g: Group)
    requires g.Valid() && g.n == 24
    ensures var p, q := Fingerprint(0, 0, 16, 0, 0), Fingerprint(0, 0, 0, 1, 0);
            && HandsCollide(g, p, q)
            && |g.ops| > 0 && SolverKey(g, p) == SolverKey(g, q) && Distance(g, p, q) == 17
  {
    Nonempty(g);
    var p, q := Fingerprint(0, 0, 16, 0, 0), Fingerprint(0, 0, 0, 1, 0);
    var l, r := Sides(0, 0, 16, 0), Sides(0, 0, 0, 1);
    assert p.Solver() == l && q.Solver() == r;
    var op := NearestIs(g, l, r, |g.ops|);
    EmptyMoved(g, op);
    assert BoardsMatch(g, op, l, r);
    SixteenHands();
    SameKeyIff(g, p, q);
    MismatchZero(g, op, Sides(0, 0, 0, 0), Sides(0, 0, 0, 0));
    assert Mismatch(g, op, l, r) == 0;
  }

  lemma SixteenHands()
    ensures Hands(Sides(0, 0, 16, 0)) == 16 == Hands(Sides(0, 0, 0, 1))
  {
    Query.SmallCount();
    ShlOne(4);
    ShlZero(4);
  }

  lemma EmptyMoved(g: Group, i: nat)
    requires g.Valid() && i < |g.ops|
    ensures g.T(i, 0) == 0
  {
    TZero(g.ops[i], |g.ops[i]|);
  }
}
