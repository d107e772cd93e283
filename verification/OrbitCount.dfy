/** How many orbits of white words there can be: the turns by quarters, with and without exchanging
    the outer and inner rings, already divide nearly every orbit by eight. */
module OrbitCount {
  import opened Bits
  import opened Subsets
  import opened Symmetry
  import opened BoardSymmetries
  import opened Orbits

  // ---------------------------------------------------------------- counting by injections

  ghost function Image<X(!new), Y>(s: set<X>, f: X -> Y): set<Y> {
    set x | x in s :: f(x)
  }

  lemma {:induction false} ImageCount<X(!new), Y(!new)>(s: set<X>, f: X -> Y)
    requires forall x, y :: x in s && y in s && f(x) == f(y) ==> x == y
    ensures |Image(s, f)| == |s|
  {
    if x :| x in s {
      var rest := s - {x};
      ImageCount(rest, f);
      assert Image(s, f) == Image(rest, f) + {f(x)};
    }
  }

  lemma SubsetCount<X(!new)>(s: set<X>, t: set<X>)
    requires s <= t
    ensures |s| <= |t|
  {
    assert t == s + (t - s);
  }

  /** The numbers below n. */
  function Range(n: nat): (s: set<nat>)
    ensures (forall i: nat :: i in s <==> i < n) && |s| == n
  {
    if n == 0 then {} else Range(n - 1) + {n - 1}
  }

  ghost function Members(l: seq<nat>): set<nat> {
    set w | w in l
  }

  lemma LastIsNew(l: seq<nat>)
    requires l != [] && Ascending(l)
    ensures Ascending(l[..|l| - 1]) && l[|l| - 1] !in l[..|l| - 1]
    ensures Members(l) == Members(l[..|l| - 1]) + {l[|l| - 1]}
  {
    assert l == l[..|l| - 1] + [l[|l| - 1]];
  }

  /** An ascending list has as many members as places. */
  lemma {:induction false} MembersCount(l: seq<nat>)
    requires Ascending(l)
    ensures |Members(l)| == |l|
  {
    hide Ascending;
    if l != [] {
      LastIsNew(l);
      MembersCount(l[..|l| - 1]);
    } else {
      assert Members(l) == {};
    }
  }

  // ---------------------------------------------------------------- eight operations

  /** Element e of the subgroup: some quarter turns, after exchanging the rings from 4 on. */
  function Op(e: nat): (op: nat)
    requires e < 8
    ensures op < 16
  {
    [15, 0, 1, 2, 7, 8, 9, 10][e]
  }

  function Quarters(e: nat): (q: nat)
    requires e < 8
    ensures q < 4
  {
    if e < 4 then e else e - 4
  }

  function Times(e: nat, f: nat): (g: nat)
    requires e < 8 && f < 8
    ensures g < 8
  {
    var q := Quarters(e) + Quarters(f);
    (if (e < 4) == (f < 4) then 0 else 4) + if q < 4 then q else q - 4
  }

  function Back(e: nat): (f: nat)
    requires e < 8
    ensures f < 8
  {
    (if e < 4 then 0 else 4) + if Quarters(e) == 0 then 0 else 4 - Quarters(e)
  }

  lemma OpMotions(e: nat)
    requires e < 8
    ensures MotionOf(Op(e)) == Motion(e >= 4, false, 2 * Quarters(e)) && EvenTurn(MotionOf(Op(e)))
  {}

  lemma TimesMotion(e: nat, f: nat)
    requires e < 8 && f < 8
    ensures EvenTurn(MotionOf(Op(e))) && EvenTurn(MotionOf(Op(f)))
    ensures MotionOf(Op(Times(e, f))) == After(MotionOf(Op(e)), MotionOf(Op(f)))
  {
    OpMotions(e);
    OpMotions(f);
    OpMotions(Times(e, f));
    hide MotionOf, Op;
  }

  lemma TimesLaws(e: nat, f: nat, g: nat)
    requires e < 8 && f < 8 && g < 8
    ensures Times(e, f) == Times(g, f) ==> e == g
    ensures Times(Back(e), e) == 0
  {}

  /** Element e applied to a white word. */
  function Act(e: nat, w: nat): nat
    requires e < 8
  {
    BOARD.T(Op(e), w)
  }

  lemma ActTimes(e: nat, f: nat, w: nat)
    requires e < 8 && f < 8
    ensures Act(e, Act(f, w)) == Act(Times(e, f), w)
  {
    BoardIsGroup();
    TimesMotion(e, f);
    hide Group.Valid, MotionOf, EvenTurn, Op, Times, Group.Composes, Group.T;
    ComposesAsMotions(Op(Times(e, f)), Op(e), Op(f));
    TCompose(BOARD, Op(Times(e, f)), Op(e), Op(f), w);
  }

  lemma ActZero(w: nat)
    requires w < Pow2(24)
    ensures Act(0, w) == w
  {
    BoardIsGroup();
    TIdentity(BOARD, w);
  }

  lemma ActWord(e: nat, w: nat)
    requires e < 8 && w < Pow2(24)
    ensures Act(e, w) < Pow2(24) && Ones(Act(e, w)) == Ones(w)
  {
    BoardIsGroup();
    TFacts(BOARD, Op(e), w);
  }

  lemma ActBit(e: nat, w: nat, x: nat)
    requires e < 8 && x < 24
    ensures Move(MotionOf(Op(Back(e))), x) < 24
    ensures Bit(Act(e, w), x) <==> Bit(w, Move(MotionOf(Op(Back(e))), x))
  {
    BoardIsGroup();
    TBit(BOARD, Op(e), w, x);
    BackIsInverse(e);
    RowIsMotion(Op(Back(e)));
    OpMotions(Back(e));
    MoveParts(MotionOf(Op(Back(e))), x);
    hide Group.Valid, Group.T, Bit, MotionOf, Move;
  }

  lemma BackIsInverse(e: nat)
    requires e < 8
    ensures INVERSE_OPS[Op(e)] == Op(Back(e))
  {}

  // ---------------------------------------------------------------- words and seeds

  lemma WordMembers(k: nat)
    ensures forall w: nat :: w in Members(Words(24, k)) <==> w < Pow2(24) && Ones(w) == k
  {
    hide Words, Pow2, Ones;
    forall w: nat ensures w in Members(Words(24, k)) <==> w < Pow2(24) && Ones(w) == k { WordMember(24, k, w); }
  }

  /** The white words with k stones. */
  ghost function WordSet(k: nat): (s: set<nat>)
    ensures forall w: nat :: w in s <==> w < Pow2(24) && Ones(w) == k
    ensures |s| == Binomial(24, k)
  {
    hide Words, Binomial, Pow2, Ones;
    WordsAreAscending(24, k);
    MembersCount(Words(24, k));
    WordsCount(24, k);
    WordMembers(k);
    Members(Words(24, k))
  }

  lemma SeedMembers(k: nat)
    ensures BOARD.Valid() && |BOARD.ops| == 16
    ensures forall w: nat :: w in Members(Seeds(BOARD, k)) <==> w in WordSet(k) && IsSeed(BOARD, w)
  {
    BoardIsGroup();
    hide Seeds, Pow2, Ones, IsSeed, Group.Valid, WordSet;
    forall w: nat ensures w in Members(Seeds(BOARD, k)) <==> w in WordSet(k) && IsSeed(BOARD, w) {
      SeedMember(BOARD, k, w);
    }
  }

  ghost function SeedSet(k: nat): (s: set<nat>)
    ensures BOARD.Valid() && |BOARD.ops| == 16 && BOARD.n == 24 && |s| == |Seeds(BOARD, k)|
    ensures forall w: nat :: w in s <==> w in WordSet(k) && IsSeed(BOARD, w)
  {
    hide Seeds, Words, Pow2, Ones, IsSeed, Group.Valid;
    BoardIsGroup();
    SeedsAreAscending(BOARD, k);
    MembersCount(Seeds(BOARD, k));
    SeedMembers(k);
    Members(Seeds(BOARD, k))
  }

  /** The words element e leaves alone. */
  ghost function Fixed(e: nat, k: nat): set<nat>
    requires e < 8
  {
    set w | w in WordSet(k) && Act(e, w) == w
  }

  lemma SeedsApart(k: nat, e: nat, s: nat, f: nat, t: nat)
    requires e < 8 && f < 8 && s in SeedSet(k) && t in SeedSet(k) && Act(e, s) == Act(f, t)
    ensures s == t
  {
    BoardIsGroup();
    hide Group.Valid, Group.T, Least, Op;
    LeastInvariant(BOARD, Op(e), s);
    LeastInvariant(BOARD, Op(f), t);
  }

  // ---------------------------------------------------------------- eight times the seeds

  /** The first element that takes s where e takes it. */
  function FirstAlike(e: nat, s: nat, n: nat): (f: nat)
    requires n <= e < 8
    ensures n <= f <= e && Act(f, s) == Act(e, s)
    decreases e - n
  {
    if Act(n, s) == Act(e, s) then n else FirstAlike(e, s, n + 1)
  }

  lemma {:induction false} FirstAlikeSame(e: nat, f: nat, s: nat, n: nat)
    requires n <= e < 8 && n <= f < 8 && Act(e, s) == Act(f, s)
    ensures FirstAlike(e, s, n) == FirstAlike(f, s, n)
    decreases 8 - n
  {
    hide Act;
    if Act(n, s) != Act(e, s) { FirstAlikeSame(e, f, s, n + 1); }
  }

  /** From an element and a seed to an element and a word it leaves alone. */
  function Stays(p: (nat, nat)): (q: (nat, nat)) {
    if p.0 < 8 then (Times(p.0, Back(FirstAlike(p.0, p.1, 0))), Act(p.0, p.1)) else p
  }

  lemma StaysFixed(e: nat, s: nat, k: nat)
    requires e < 8 && s in SeedSet(k)
    ensures Stays((e, s)).0 < 8 && Stays((e, s)).1 in Fixed(Stays((e, s)).0, k)
  {
    var f := FirstAlike(e, s, 0);
    hide Act, Times, Back, FirstAlike;
    ActWord(e, s);
    ActTimes(e, Back(f), Act(f, s));
    ActTimes(Back(f), f, s);
    TimesLaws(f, 0, 0);
    ActZero(s);
  }

  lemma StaysApart(e: nat, s: nat, f: nat, t: nat, k: nat)
    requires e < 8 && f < 8 && s in SeedSet(k) && t in SeedSet(k) && Stays((e, s)) == Stays((f, t))
    ensures e == f && s == t
  {
    hide Act, Times, Back, FirstAlike;
    SeedsApart(k, e, s, f, t);
    FirstAlikeSame(e, f, s, 0);
    TimesLaws(e, Back(FirstAlike(e, s, 0)), f);
  }

  function Pair(e: nat, w: nat): (nat, nat) { (e, w) }

  ghost function PairsWith(e: nat, s: set<nat>): set<(nat, nat)> {
    set w | w in s :: Pair(e, w)
  }

  lemma {:induction false} PairsWithCount(e: nat, s: set<nat>)
    ensures |PairsWith(e, s)| == |s|
  {
    if w :| w in s {
      PairsWithCount(e, s - {w});
      assert PairsWith(e, s) == PairsWith(e, s - {w}) + {Pair(e, w)};
    } else {
      assert PairsWith(e, s) == {};
    }
  }

  ghost function Pairs(n: nat, s: set<nat>): set<(nat, nat)> {
    set e: nat, w | e < n && w in s :: Pair(e, w)
  }

  lemma {:induction false} PairsCount(n: nat, s: set<nat>)
    ensures |Pairs(n, s)| == n * |s|
  {
    if n == 0 {
      assert Pairs(0, s) == {};
    } else {
      PairsCount(n - 1, s);
      PairsWithCount(n - 1, s);
      assert Pairs(n, s) == Pairs(n - 1, s) + PairsWith(n - 1, s);
      assert Pairs(n - 1, s) !! PairsWith(n - 1, s);
    }
  }

  ghost function FixedPairs(n: nat, k: nat): set<(nat, nat)>
    requires n <= 8
  {
    set e: nat, w | e < n && w in Fixed(e, k) :: Pair(e, w)
  }

  ghost function FixedTotal(n: nat, k: nat): nat
    requires n <= 8
  {
    if n == 0 then 0 else FixedTotal(n - 1, k) + |Fixed(n - 1, k)|
  }

  lemma {:induction false} FixedCount(n: nat, k: nat)
    requires n <= 8
    ensures |FixedPairs(n, k)| <= FixedTotal(n, k)
  {
    hide Fixed;
    if n == 0 {
      assert FixedPairs(0, k) == {};
    } else {
      FixedCount(n - 1, k);
      PairsWithCount(n - 1, Fixed(n - 1, k));
      assert FixedPairs(n, k) == FixedPairs(n - 1, k) + PairsWith(n - 1, Fixed(n - 1, k));
    }
  }

  /** Eight times the orbits are at most the fixed words of the eight elements together. */
  lemma EightTimesSeeds(k: nat)
    ensures 8 * |SeedSet(k)| <= FixedTotal(8, k)
  {
    hide Fixed, FixedTotal, Stays, SeedSet;
    var pairs := Pairs(8, SeedSet(k));
    PairsCount(8, SeedSet(k));
    FixedCount(8, k);
    forall p, q | p in pairs && q in pairs && Stays(p) == Stays(q) ensures p == q {
      StaysApart(p.0, p.1, q.0, q.1, k);
    }
    ImageCount(pairs, Stays);
    var images := Image(pairs, Stays);
    forall q | q in images ensures q in FixedPairs(8, k) {
      var p :| p in pairs && Stays(p) == q;
      StaysFixed(p.0, p.1, k);
      assert q == (q.0, q.1);
    }
    SubsetCount(images, FixedPairs(8, k));
  }
}
