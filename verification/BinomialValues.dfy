/** Values of binomial coefficients on boards of twelve to twenty-four points. */
module BinomialValues {
  import opened Subsets

  lemma TimesLess(k: nat, a: nat, b: nat)
    requires k > 0 && a < b
    ensures k * a < k * b
  {
    assert k * b == k * a + k * (b - a) && k * (b - a) > 0;
  }

  lemma TimesAtMost(k: nat, l: nat, a: nat)
    requires k <= l
    ensures k * a <= l * a
  {
    assert l * a == k * a + (l - k) * a;
  }

  lemma FewerOfMore(k: nat, l: nat, a: nat, b: nat)
    requires 0 < k <= l && k * b == l * a
    ensures a <= b
  {
    TimesAtMost(k, l, a);
    if b < a { TimesLess(k, b, a); }
  }

  /** Towards the middle a row rises. */
  lemma Rises(n: nat, i: nat)
    requires 2 * i + 1 <= n
    ensures Binomial(n, i) <= Binomial(n, i + 1)
  {
    hide Binomial;
    Absorption(n, i);
    FewerOfMore(i + 1, n - i, Binomial(n, i), Binomial(n, i + 1));
  }

  lemma {:induction false} RisesTo(n: nat, i: nat, m: nat)
    requires i <= m && 2 * m <= n + 1
    ensures Binomial(n, i) <= Binomial(n, m)
    decreases m - i
  {
    if i < m {
      Rises(n, i);
      RisesTo(n, i + 1, m);
    }
  }

  /** The middle entry of a row is its greatest. */
  lemma MiddleIsGreatest(n: nat, k: nat)
    ensures Binomial(n, k) <= Binomial(n, n / 2)
  {
    hide Binomial;
    if k > n {
      BinomialZero(n, k);
    } else if 2 * k <= n + 1 && k <= n / 2 {
      RisesTo(n, k, n / 2);
    } else {
      BinomialMirror(n, k);
      RisesTo(n, n - k, n / 2);
    }
  }

  lemma BinomialFirst(n: nat)
    ensures Binomial(n, 0) == 1
  {}

  /** The first entries of row 24. */
  function Row24(w: nat): nat
    requires w <= 12
  {
    [1, 24, 276, 2024, 10626, 42504, 134596, 346104, 735471, 1307504, 1961256, 2496144, 2704156][w]
  }

  lemma Row24Step(w: nat)
    requires 0 < w <= 12
    ensures Row24(w - 1) * (25 - w) / w == Row24(w)
  {
    match w
    case 1 => case 2 => case 3 => case 4 => case 5 => case 6 =>
    case 7 => case 8 => case 9 => case 10 => case 11 => case 12 =>
  }

  lemma {:induction false} Row24Is(w: nat)
    requires w <= 12
    ensures Binomial(24, w) == Row24(w)
  {
    hide Binomial, Row24;
    if w == 0 {
      BinomialFirst(24);
      assert Row24(0) == 1 by { FirstOfRow24(); }
    } else {
      Row24Is(w - 1);
      Row24Step(w);
      ProductStep(24, w - 1, Row24(w - 1));
    }
  }

  lemma FirstOfRow24()
    ensures Row24(0) == 1
  {}

  /** The middle of a row from the middle of the row above. */
  lemma MiddleStep(n: nat)
    requires n > 0
    ensures n % 2 == 0 ==> Binomial(n, n / 2) == 2 * Binomial(n - 1, (n - 1) / 2)
    ensures n % 2 == 1 ==> (n / 2 + 1) * Binomial(n, n / 2) == n * Binomial(n - 1, (n - 1) / 2)
  {
    var m := n / 2;
    PascalStep(n, m);
    hide Binomial;
    if n % 2 == 0 {
      BinomialMirror(n - 1, m);
    } else if m > 0 {
      Absorption(n - 1, m - 1);
      OddMiddle(m, Binomial(n - 1, m - 1), Binomial(n - 1, m), Binomial(n, m));
    }
  }

  lemma PascalStep(n: nat, k: nat)
    requires n > 0
    ensures Binomial(n, k) == Binomial(n - 1, k) + if k == 0 then 0 else Binomial(n - 1, k - 1)
  {
    if k == 0 { BinomialFirst(n - 1); }
  }

  lemma OddMiddle(m: nat, x: int, y: int, z: int)
    requires z == x + y && m * y == (m + 1) * x
    ensures (m + 1) * z == (2 * m + 1) * y
  {}

  /** The greatest entry of row 24 - w. */
  function Greatest(w: nat): nat
    requires w <= 12
  {
    [2704156, 1352078, 705432, 352716, 184756, 92378, 48620, 24310, 12870, 6435, 3432, 1716, 924][w]
  }

  lemma {:induction false} GreatestIsMiddle(w: nat)
    requires w <= 12
    ensures Binomial(24 - w, (24 - w) / 2) == Greatest(w)
  {
    hide Binomial, Greatest, Row24;
    if w == 0 {
      Row24Is(12);
      GreatestOfRow24();
    } else {
      GreatestIsMiddle(w - 1);
      MiddleStep(25 - w);
      GreatestStep(w, Binomial(24 - w, (24 - w) / 2));
    }
  }

  lemma GreatestOfRow24()
    ensures Greatest(0) == Row24(12)
  {}

  lemma GreatestStep(w: nat, x: nat)
    requires 0 < w <= 12
    requires w % 2 == 1 ==> Greatest(w - 1) == 2 * x
    requires w % 2 == 0 ==> ((25 - w) / 2 + 1) * Greatest(w - 1) == (25 - w) * x
    ensures x == Greatest(w)
  {
    match w
    case 1 => case 2 => case 3 => case 4 => case 5 => case 6 =>
    case 7 => case 8 => case 9 => case 10 => case 11 => case 12 =>
  }

  lemma GreatestIs(w: nat, k: nat)
    requires w <= 12
    ensures Binomial(24 - w, k) <= Greatest(w)
  {
    hide Binomial, Greatest;
    MiddleIsGreatest(24 - w, k);
    GreatestIsMiddle(w);
  }
}
