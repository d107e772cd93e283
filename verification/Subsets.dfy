/** The k-subsets of an n-point board as words with k one bits: the bit trick that
    steps from one to the next, the loop that lists them, and the binomial count. */
module Subsets {
  import opened Bits

  /** Width of the word the bit trick runs in (C++ int, Rust u32). */
  const WORD: nat := 32
  /** Points on the board; the step from the empty word goes to 2^POINTS. */
  const POINTS: nat := 24

  /** Two's complement negation in a 32-bit word. */
  function WrappingNeg(x: nat): (r: nat)
    requires x < Pow2(WORD)
    ensures x > 0 ==> r == Pow2(WORD) - x
  {
    if x == 0 then 0 else Pow2(WORD) - x
  }

  /** The step from x, given its lowest one bit c: add c, and bring the ones the
      carry passed down to the bottom. */
  function CarryStep(x: nat, c: nat): nat
    requires c > 0
  {
    var r := x + c;
    Or(Xor(r, x) / 4 / c, r)
  }

  /** Adding the lowest one bit stays within a signed word, as the C++ sum needs and more than the
      Rust sum does. */
  predicate StepFits(x: nat)
    requires x < Pow2(WORD)
  {
    x + And(x, WrappingNeg(x)) < Pow2(WORD - 1)
  }

  /** next_choose, where its sum does not overflow. */
  function NextChoose(x: nat): nat
    requires x < Pow2(WORD) && StepFits(x)
  {
    if x == 0 then Pow2(POINTS)
    else
      LowestBitIsPositive(x, WORD);
      CarryStep(x, And(x, WrappingNeg(x)))
  }

  /** The sum never overflows on the words of the board. */
  lemma BoardStepFits(x: nat)
    requires x < Pow2(POINTS)
    ensures x < Pow2(WORD) && StepFits(x)
  {
    hide And, Pow2;
    Pow2Strict(POINTS, WORD);
    AndAtMost(WrappingNeg(x), x);
    AndCommutes(x, WrappingNeg(x));
    DoublePower(POINTS);
    Pow2Strict(POINTS + 1, WORD - 1);
  }

  lemma DoublePower(k: nat)
    ensures Pow2(k + 1) == Pow2(k) + Pow2(k)
  {}

  // ---------------------------------------------------------------- the shape of a word

  /** x reads, from the top: the bits of h, a zero, m ones, z zeros. */
  ghost predicate Shape(x: nat, h: nat, m: nat, z: nat) {
    m >= 1 && x == Shl(2 * h, m + z) + Run(m, z)
  }

  /** m ones above z zeros. */
  function Run(m: nat, z: nat): (r: nat)
    ensures r + Pow2(z) == Pow2(m + z)
    decreases m + z
  {
    if z > 0 then 2 * Run(m, z - 1)
    else if m > 0 then 2 * Run(m - 1, 0) + 1
    else 0
  }

  lemma {:induction false} ShapeOf(x: nat) returns (h: nat, m: nat, z: nat)
    requires x > 0
    ensures Shape(x, h, m, z)
  {
    if x % 2 == 0 {
      h, m, z := ShapeOf(x / 2);
      z := z + 1;
      assert Shl(2 * h, m + z) == 2 * Shl(2 * h, m + (z - 1));
    } else if x / 2 % 2 == 0 {
      h, m, z := x / 4, 1, 0;
      assert Run(1, 0) == 2 * Run(0, 0) + 1;
      assert Shl(2 * h, 1) == 2 * Shl(2 * h, 0);
    } else {
      h, m, z := ShapeOf(x / 2);
      OddShape(x / 2, h, m, z);
      m := m + 1;
      assert Shl(2 * h, m) == 2 * Shl(2 * h, m - 1);
    }
  }

  lemma OddShape(x: nat, h: nat, m: nat, z: nat)
    requires Shape(x, h, m, z)
    ensures x % 2 == 1 <==> z == 0
    ensures x / 2 == Shl(2 * h, m + z - 1) + Run(m, z) / 2
  {
    hide Shl, Run, Pow2;
    ShlStep(2 * h, m + z);
    RunSteps(m, z);
  }

  lemma ShlStep(v: nat, k: nat)
    requires k > 0
    ensures Shl(v, k) == 2 * Shl(v, k - 1)
  {}

  lemma RunSteps(m: nat, z: nat)
    ensures z > 0 ==> Run(m, z) == 2 * Run(m, z - 1)
    ensures m > 0 ==> Run(m, 0) == 2 * Run(m - 1, 0) + 1
    ensures Run(0, 0) == 0
  {}

  lemma {:induction false} ComplementAnd(y: nat, k: nat)
    requires y < Pow2(k)
    ensures And(y, Pow2(k) - 1 - y) == 0
    decreases k
  {
    if k > 0 {
      ComplementAnd(y / 2, k - 1);
      assert (Pow2(k) - 1 - y) / 2 == Pow2(k - 1) - 1 - y / 2;
      assert (Pow2(k) - 1 - y) % 2 == 1 - y % 2;
    }
  }

  /** x & -x isolates the lowest one bit. */
  lemma {:induction false} LowestBit(x: nat, k: nat, h: nat, m: nat, z: nat)
    requires Shape(x, h, m, z) && 0 < x < Pow2(k)
    ensures And(x, Pow2(k) - x) == Pow2(z)
    decreases z
  {
    hide And, Pow2, Shl, Run;
    OddShape(x, h, m, z);
    PositiveWidth(x, k);
    EvenPow2(k);
    AndStep(x, Pow2(k) - x);
    if z == 0 {
      PowerOfNothing();
      ComplementAnd(x / 2, k - 1);
      assert (Pow2(k) - x) / 2 == Pow2(k - 1) - 1 - x / 2;
    } else {
      HalfShape(x, h, m, z);
      LowestBit(x / 2, k - 1, h, m, z - 1);
      assert (Pow2(k) - x) / 2 == Pow2(k - 1) - x / 2;
      EvenPow2(z);
    }
  }

  lemma PositiveWidth(x: nat, k: nat)
    requires 0 < x < Pow2(k)
    ensures k > 0
  {}

  lemma PowerOfNothing()
    ensures Pow2(0) == 1
  {}

  lemma HalfShape(x: nat, h: nat, m: nat, z: nat)
    requires Shape(x, h, m, z) && z > 0
    ensures Shape(x / 2, h, m, z - 1)
  {
    OddShape(x, h, m, z);
    RunSteps(m, z);
    hide Shl, Pow2;
  }

  lemma LowestBitIsPositive(x: nat, k: nat)
    requires 0 < x < Pow2(k)
    ensures And(x, Pow2(k) - x) > 0
  {
    var h, m, z := ShapeOf(x);
    LowestBit(x, k, h, m, z);
  }

  // ---------------------------------------------------------------- what the step computes

  lemma {:induction false} XorShared(q: nat, a: nat, b: nat, k: nat)
    requires a < Pow2(k) && b < Pow2(k)
    ensures Xor(Shl(q, k) + a, Shl(q, k) + b) == Xor(a, b)
    decreases k
  {
    hide Xor, Pow2, Shl;
    if k == 0 {
      PowerOfNothing();
      XorSelf(Shl(q, 0));
      XorSelf(a);
    } else {
      EvenPow2(k);
      ShlStep(q, k);
      XorShared(q, a / 2, b / 2, k - 1);
      XorStep(Shl(q, k) + a, Shl(q, k) + b);
      XorStep(a, b);
      assert (Shl(q, k) + a) / 2 == Shl(q, k - 1) + a / 2;
      assert (Shl(q, k) + b) / 2 == Shl(q, k - 1) + b / 2;
    }
  }

  lemma {:induction false} XorSelf(q: nat)
    ensures Xor(q, q) == 0
  {
    if q > 0 { XorSelf(q / 2); }
  }

  lemma EvenPow2(k: nat)
    requires k > 0
    ensures Pow2(k) / 2 == Pow2(k - 1) && Pow2(k) % 2 == 0
  {}

  lemma XorCarryBase()
    ensures Xor(Pow2(0), Run(0, 0)) == Run(1, 0)
  {}

  lemma {:induction false} XorCarry(m: nat, z: nat)
    ensures Xor(Pow2(m + z), Run(m, z)) == Run(m + 1, z)
    decreases m + z
  {
    hide Run, Pow2, Xor;
    if m + z == 0 {
      XorCarryBase();
    } else {
      EvenPow2(m + z);
      XorStep(Pow2(m + z), Run(m, z));
      RunSteps(m, z);
      RunSteps(m + 1, z);
      if z > 0 { XorCarry(m, z - 1); } else { XorCarry(m - 1, 0); }
    }
  }

  lemma XorAcrossCarry(x: nat, h: nat, m: nat, z: nat)
    requires Shape(x, h, m, z)
    ensures Xor(x + Pow2(z), x) == Run(m + 1, z)
  {
    hide Pow2, Shl, Run, Xor;
    ShlOfDouble(h, m + z);
    XorCarry(m, z);
    Pow2Strict(m + z, m + z + 1);
    XorShared(h, Pow2(m + z), Run(m, z), m + z + 1);
  }

  lemma {:induction false} ShrRun(m: nat, z: nat)
    ensures Shr(Run(m, z), z) == Run(m, 0)
    decreases z
  {
    if z > 0 {
      assert Run(m, z) / 2 == Run(m, z - 1);
      ShrRun(m, z - 1);
    }
  }

  lemma {:induction false} ShrQuarter(x: nat, k: nat)
    ensures Shr(x / 4, k) == Shr(x, k) / 4
    decreases k
  {
    if k > 0 {
      assert x / 4 / 2 == x / 2 / 4;
      ShrQuarter(x / 2, k - 1);
    }
  }

  /** Dropping two of the passed ones and the zeros below them. */
  lemma ShiftedOnes(m: nat, z: nat)
    requires m >= 1
    ensures Run(m + 1, z) / 4 / Pow2(z) == Run(m - 1, 0)
  {
    DivIsShr(Run(m + 1, z) / 4, z);
    ShrQuarter(Run(m + 1, z), z);
    ShrRun(m + 1, z);
    assert Run(m + 1, 0) == 4 * Run(m - 1, 0) + 3;
  }

  /** What the bit trick computes: the carry moves up one place, and the ones it
      passed, less one, fall to the bottom. */
  lemma CarryStepShape(x: nat, h: nat, m: nat, z: nat)
    requires Shape(x, h, m, z)
    ensures CarryStep(x, Pow2(z)) == Shl(2 * h + 1, m + z) + Run(m - 1, 0)
  {
    hide Pow2, Shl, Run, Xor, Or;
    ShlPlusOne(2 * h, m + z);
    XorAcrossCarry(x, h, m, z);
    ShiftedOnes(m, z);
    Pow2Monotone(m - 1, m + z);
    OrIsSum(2 * h + 1, Run(m - 1, 0), m + z);
  }

  // ---------------------------------------------------------------- least successor

  lemma {:induction false} OnesOfRun(m: nat, z: nat)
    ensures Ones(Run(m, z)) == m
    decreases m + z
  {
    RunSteps(m, z);
    OnesStep(Run(m, z));
    hide Run;
    if z > 0 {
      OnesOfRun(m, z - 1);
    } else if m > 0 {
      OnesOfRun(m - 1, 0);
    }
  }

  lemma OnesBelow(q: nat, lo: nat, k: nat)
    requires lo < Pow2(k)
    ensures Ones(Shl(q, k) + lo) == Ones(q / 2) + q % 2 + Ones(lo)
  {
    OnesSplit(q, lo, k);
    OnesStep(q);
  }

  /** next_choose(x) is the least word above x with as many one bits as x. */
  lemma NextChooseIsLeast(x: nat)
    requires 0 < x < Pow2(WORD) && StepFits(x)
    ensures x < NextChoose(x) && Ones(NextChoose(x)) == Ones(x)
    ensures forall y: nat :: x < y < NextChoose(x) ==> Ones(y) != Ones(x)
  {
    hide Ones, Pow2, Shl, Run, And, CarryStep;
    var h, m, z := ShapeOf(x);
    LowestBit(x, WORD, h, m, z);
    CarryStepShape(x, h, m, z);
    StepIsLeast(x, h, m, z);
  }

  lemma StepIsLeast(x: nat, h: nat, m: nat, z: nat)
    requires Shape(x, h, m, z)
    ensures var next := Shl(2 * h + 1, m + z) + Run(m - 1, 0);
            x < next && Ones(next) == Ones(x) &&
            forall y: nat :: x < y < next ==> Ones(y) != Ones(x)
  {
    hide Ones, Pow2, Shl, Run;
    ShlPlusOne(2 * h, m + z);
    Pow2Strict(m - 1, m + z);
    OnesOfRun(m, z);
    OnesOfRun(m - 1, 0);
    OnesBelow(2 * h, Run(m, z), m + z);
    OnesBelow(2 * h + 1, Run(m - 1, 0), m + z);
    var next := Shl(2 * h + 1, m + z) + Run(m - 1, 0);
    forall y: nat | x < y < next ensures Ones(y) != Ones(x) {
      if y < Shl(2 * h + 1, m + z) {
        TooFewBelow(h, m, z, y - Shl(2 * h, m + z));
      } else {
        TooFewAbove(h, m, z, y - Shl(2 * h + 1, m + z));
      }
    }
  }

  lemma TooFewBelow(h: nat, m: nat, z: nat, lo: nat)
    requires m >= 1 && Run(m, z) < lo < Pow2(m + z)
    ensures Ones(Shl(2 * h, m + z) + lo) != Ones(h) + m
  {
    hide Ones, Shl;
    OnesBelow(2 * h, lo, m + z);
    OnesUpperBound(lo, m + z);
  }

  lemma TooFewAbove(h: nat, m: nat, z: nat, lo: nat)
    requires m >= 1 && lo < Run(m - 1, 0)
    ensures Ones(Shl(2 * h + 1, m + z) + lo) != Ones(h) + m
  {
    hide Ones, Shl;
    Pow2Monotone(m - 1, m + z);
    OnesBelow(2 * h + 1, lo, m + z);
    OnesLowerBound(lo);
  }

  // ---------------------------------------------------------------- all words with k ones

  function Raise(s: seq<nat>, d: nat): seq<nat> {
    seq(|s|, i requires 0 <= i < |s| => s[i] + d)
  }

  /** Every n-bit word with k one bits, in ascending order. */
  function Words(n: nat, k: nat): seq<nat> {
    if k == 0 then [0]
    else if n == 0 then []
    else Words(n - 1, k) + Raise(Words(n - 1, k - 1), Pow2(n - 1))
  }

  /** Pascal's triangle, the constant table binom. */
  function Binomial(n: nat, k: nat): nat {
    if k == 0 then 1
    else if n == 0 then 0
    else Binomial(n - 1, k) + Binomial(n - 1, k - 1)
  }

  lemma {:induction false} WordsCount(n: nat, k: nat)
    ensures |Words(n, k)| == Binomial(n, k)
  {
    if k > 0 && n > 0 {
      WordsCount(n - 1, k);
      WordsCount(n - 1, k - 1);
    }
  }

  lemma {:induction false} OnesWithTop(w: nat, k: nat)
    requires w < Pow2(k)
    ensures Ones(w + Pow2(k)) == Ones(w) + 1
    decreases k
  {
    OnesStep(w + Pow2(k));
    OnesStep(w);
    if k > 0 {
      OnesWithTop(w / 2, k - 1);
      assert (w + Pow2(k)) / 2 == w / 2 + Pow2(k - 1);
    }
  }

  lemma WordsUnfold(n: nat, k: nat)
    requires k > 0
    ensures n == 0 ==> Words(n, k) == []
    ensures n > 0 ==> Words(n, k) == Words(n - 1, k) + Raise(Words(n - 1, k - 1), Pow2(n - 1))
  {}

  /** Where the i-th word comes from: without the top point, or with it. */
  lemma WordsAt(n: nat, k: nat, i: nat)
    requires k > 0 && i < |Words(n, k)|
    ensures n > 0 && |Words(n, k)| == |Words(n - 1, k)| + |Words(n - 1, k - 1)|
    ensures i < |Words(n - 1, k)| ==> Words(n, k)[i] == Words(n - 1, k)[i]
    ensures i >= |Words(n - 1, k)| ==>
              Words(n, k)[i] == Words(n - 1, k - 1)[i - |Words(n - 1, k)|] + Pow2(n - 1)
  {
    WordsUnfold(n, k);
    hide Words, Pow2;
  }

  lemma {:induction false} WordsSound(n: nat, k: nat, i: nat)
    requires i < |Words(n, k)|
    ensures Words(n, k)[i] < Pow2(n) && Ones(Words(n, k)[i]) == k
    decreases n
  {
    if k > 0 {
      WordsAt(n, k, i);
      EvenPow2(n);
      hide Words, Ones, Pow2;
      var low := Words(n - 1, k);
      if i < |low| {
        WordsSound(n - 1, k, i);
      } else {
        WordsSound(n - 1, k - 1, i - |low|);
        OnesWithTop(Words(n - 1, k - 1)[i - |low|], n - 1);
      }
    }
  }

  lemma {:induction false} WordsComplete(n: nat, w: nat) returns (i: nat)
    requires w < Pow2(n)
    ensures i < |Words(n, Ones(w))| && Words(n, Ones(w))[i] == w
    decreases n
  {
    i := 0;
    if w > 0 {
      OnesPositive(w);
      var low := Words(n - 1, Ones(w));
      if w < Pow2(n - 1) {
        i := WordsComplete(n - 1, w);
      } else {
        var v := w - Pow2(n - 1);
        OnesWithTop(v, n - 1);
        var j := WordsComplete(n - 1, v);
        i := |low| + j;
      }
    }
  }

  lemma {:induction false} WordsAscending(n: nat, k: nat, i: nat, j: nat)
    requires i < j < |Words(n, k)|
    ensures Words(n, k)[i] < Words(n, k)[j]
    decreases n
  {
    hide Words, Ones, Pow2;
    if k == 0 {
      WordsOfNone(n);
    } else {
      WordsAt(n, k, i);
      WordsAt(n, k, j);
      var d := |Words(n - 1, k)|;
      if j < d {
        WordsAscending(n - 1, k, i, j);
      } else if d <= i {
        WordsAscending(n - 1, k - 1, i - d, j - d);
      } else {
        WordsSound(n - 1, k, i);
      }
    }
  }

  lemma WordsOfNone(n: nat)
    ensures |Words(n, 0)| == 1 && Words(n, 0)[0] == 0
  {}

  lemma {:induction false} OnesPositive(w: nat)
    requires w > 0
    ensures Ones(w) > 0
  {
    if w % 2 == 0 { OnesPositive(w / 2); }
  }

  /** The loop's start word is the first in the list. */
  lemma {:induction false} WordsFirst(n: nat, k: nat)
    requires k <= n
    ensures |Words(n, k)| > 0 && Words(n, k)[0] == Pow2(k) - 1
  {
    if k > 0 {
      if k < n {
        WordsFirst(n - 1, k);
      } else {
        WordsNone(n - 1, k);
        WordsFirst(n - 1, k - 1);
      }
    }
  }

  lemma {:induction false} WordsNone(n: nat, k: nat)
    requires n < k
    ensures Words(n, k) == []
  {
    if n > 0 {
      WordsNone(n - 1, k);
      WordsNone(n - 1, k - 1);
    }
  }

  /** The least greater word with k ones is the list's next entry, or off the board. */
  lemma NextInList(n: nat, k: nat, i: nat, next: nat)
    requires i < |Words(n, k)| && Words(n, k)[i] < next && Ones(next) == k
    requires forall y: nat :: Words(n, k)[i] < y < next ==> Ones(y) != k
    ensures i + 1 < |Words(n, k)| ==> next == Words(n, k)[i + 1]
    ensures i + 1 == |Words(n, k)| ==> next >= Pow2(n)
  {
    hide Words, Ones, Pow2;
    if i + 1 < |Words(n, k)| {
      WordsSound(n, k, i + 1);
      WordsAscending(n, k, i, i + 1);
    }
    if next < Pow2(n) {
      var j := WordsComplete(n, next);
      if j < i { WordsAscending(n, k, j, i); }
      if i + 1 < j { WordsAscending(n, k, i + 1, j); }
    }
  }

  lemma ZeroWord(n: nat, k: nat)
    requires k == Ones(0)
    ensures Words(n, k) == [0] && StepFits(0) && NextChoose(0) == Pow2(POINTS)
  {}

  /** The bit trick steps through the list, and leaves the board after its last word. */
  lemma WordsNext(n: nat, k: nat, i: nat)
    requires n <= POINTS && i < |Words(n, k)|
    ensures Words(n, k)[i] < Pow2(WORD) && StepFits(Words(n, k)[i])
    ensures i + 1 < |Words(n, k)| ==> NextChoose(Words(n, k)[i]) == Words(n, k)[i + 1]
    ensures i + 1 == |Words(n, k)| ==> NextChoose(Words(n, k)[i]) >= Pow2(n)
  {
    hide Words, Ones, NextChoose, Pow2, StepFits;
    var x := Words(n, k)[i];
    WordsSound(n, k, i);
    Pow2Monotone(n, POINTS);
    BoardStepFits(x);
    if x > 0 {
      NextChooseIsLeast(x);
      NextInList(n, k, i, NextChoose(x));
    } else {
      ZeroWord(n, k);
    }
  }

  /** combination_masks: the loop that lists the words, as in both hashers. */
  method CombinationMasks(universe: nat, count: nat) returns (result: seq<nat>)
    requires universe <= POINTS && count <= universe
    ensures result == Words(universe, count)
    ensures |result| == Binomial(universe, count)
  {
    hide Words, NextChoose, Binomial, Ones, Pow2, StepFits;
    ghost var all := Words(universe, count);
    WordsFirst(universe, count);
    WordsCount(universe, count);
    var limit := Pow2(universe);
    result := [];
    var mask := Pow2(count) - 1;
    while mask < limit
      invariant |result| <= |all| && result == all[..|result|]
      invariant |result| < |all| ==> mask == all[|result|]
      invariant |result| == |all| ==> mask >= limit
      decreases |all| - |result|
    {
      WordsNext(universe, count, |result|);
      result := result + [mask];
      mask := NextChoose(mask);
    }
    if |result| < |all| {
      WordsSound(universe, count, |result|);
    }
  }

  // ---------------------------------------------------------------- the multiplicative binomial

  lemma {:induction false} Absorption(n: nat, i: nat)
    requires i <= n
    ensures (i + 1) * Binomial(n, i + 1) == (n - i) * Binomial(n, i)
  {
    if n == i {
      BinomialZero(n, n + 1);
    } else if i == 0 {
      Absorption(n - 1, 0);
      assert Binomial(n, 1) == Binomial(n - 1, 1) + 1;
    } else {
      Absorption(n - 1, i);
      Absorption(n - 1, i - 1);
      PascalStep(n, i, Binomial(n - 1, i + 1), Binomial(n - 1, i), Binomial(n - 1, i - 1));
    }
  }

  lemma PascalStep(n: int, i: int, a: int, b: int, c: int)
    requires (i + 1) * a == (n - 1 - i) * b
    requires (i - 1 + 1) * b == (n - 1 - (i - 1)) * c
    ensures (i + 1) * (a + b) == (n - i) * (b + c)
  {
    assert (i + 1) * (a + b) == (n - 1 - i) * b + (i + 1) * b == n * b;
    assert (n - i) * (b + c) == (n - i) * b + i * b == n * b;
  }

  lemma {:induction false} BinomialZero(n: nat, k: nat)
    requires n < k
    ensures Binomial(n, k) == 0
  {
    if n > 0 {
      BinomialZero(n - 1, k);
      BinomialZero(n - 1, k - 1);
    }
  }

  lemma {:induction false} BinomialMirror(n: nat, k: nat)
    requires k <= n
    ensures Binomial(n, k) == Binomial(n, n - k)
  {
    if n > 0 {
      if k == n || k == 0 {
        BinomialZero(n - 1, n);
        if k == n && n > 1 { BinomialMirror(n - 1, n - 1); }
        if k == 0 && n > 1 { BinomialMirror(n - 1, 0); }
      } else {
        BinomialMirror(n - 1, k);
        BinomialMirror(n - 1, k - 1);
      }
    }
  }

  lemma ProductStep(n: nat, i: nat, result: nat)
    requires i < n && result == Binomial(n, i)
    ensures result * (n - i) / (i + 1) == Binomial(n, i + 1)
  {
    Absorption(n, i);
    var next := Binomial(n, i + 1);
    assert result * (n - i) == next * (i + 1) + 0;
    DivUnique(result * (n - i), i + 1, next, 0);
  }

  /** binom of the Rust index: the running product stays an exact binomial. */
  method BinomByProduct(n: nat, k: nat) returns (result: nat)
    requires k <= n
    ensures result == Binomial(n, k)
  {
    var m := if k < n - k then k else n - k;
    result := 1;
    for i := 0 to m
      invariant result == Binomial(n, i)
    {
      ProductStep(n, i, result);
      result := result * (n - i) / (i + 1);
    }
    BinomialMirror(n, k);
  }
}
