/** Orbits of white words under a board group, their least members (seeds), and the
    numbering of seed boards both hashers use. */
module Orbits {
  import opened Bits
  import opened Subsets
  import opened Collapse
  import opened Symmetry

  // ---------------------------------------------------------------- least images

  function LeastUpTo(g: Group, w: nat, k: nat): nat
    requires 1 <= k <= |g.ops|
  {
    if k == 1 then g.T(0, w)
    else
      var m := LeastUpTo(g, w, k - 1);
      if g.T(k - 1, w) < m then g.T(k - 1, w) else m
  }

  /** The least word of w's orbit. */
  function Least(g: Group, w: nat): nat
    requires |g.ops| > 0
  {
    LeastUpTo(g, w, |g.ops|)
  }

  lemma {:induction false} LeastUpToIsMin(g: Group, w: nat, k: nat) returns (op: nat)
    requires 1 <= k <= |g.ops|
    ensures forall i: nat :: i < k ==> LeastUpTo(g, w, k) <= g.T(i, w)
    ensures op < k && g.T(op, w) == LeastUpTo(g, w, k)
    decreases k
  {
    if k == 1 {
      op := 0;
    } else {
      op := LeastUpToIsMin(g, w, k - 1);
      if g.T(k - 1, w) < LeastUpTo(g, w, k - 1) { op := k - 1; }
    }
  }

  lemma LeastIsMin(g: Group, w: nat) returns (op: nat)
    requires |g.ops| > 0
    ensures forall i: nat :: i < |g.ops| ==> Least(g, w) <= g.T(i, w)
    ensures op < |g.ops| && g.T(op, w) == Least(g, w)
  {
    op := LeastUpToIsMin(g, w, |g.ops|);
  }

  /** The least word is the same from anywhere in the orbit. */
  lemma LeastInvariant(g: Group, j: nat, w: nat)
    requires g.Valid() && j < |g.ops| && w < Pow2(g.n)
    ensures Least(g, g.T(j, w)) == Least(g, w)
  {
    var v := g.T(j, w);
    var i := LeastIsMin(g, v);
    TCompose(g, Mul(g, i, j), i, j, w);
    var k := LeastIsMin(g, w);
    TInverse(g, j, w);
    TCompose(g, Mul(g, k, g.inv[j]), k, g.inv[j], v);
  }

  ghost predicate SameOrbit(g: Group, v: nat, w: nat) {
    exists i: nat :: i < |g.ops| && g.T(i, v) == w
  }

  /** Two words have the same least word exactly when one is an image of the other. */
  lemma SameOrbitIffSameLeast(g: Group, v: nat, w: nat)
    requires g.Valid() && v < Pow2(g.n) && w < Pow2(g.n)
    ensures SameOrbit(g, v, w) <==> Least(g, v) == Least(g, w)
  {
    if SameOrbit(g, v, w) {
      var i: nat :| i < |g.ops| && g.T(i, v) == w;
      LeastInvariant(g, i, v);
    }
    if Least(g, v) == Least(g, w) {
      var i := LeastIsMin(g, v);
      var j := LeastIsMin(g, w);
      TInverse(g, j, w);
      TCompose(g, Mul(g, g.inv[j], i), g.inv[j], i, v);
    }
  }

  // ---------------------------------------------------------------- seeds

  predicate IsSeed(g: Group, w: nat)
    requires |g.ops| > 0
  {
    Least(g, w) == w
  }

  function SeedsAmong(g: Group, ws: seq<nat>): seq<nat>
    requires |g.ops| > 0
  {
    if ws == [] then []
    else
      var w := ws[|ws| - 1];
      SeedsAmong(g, ws[..|ws| - 1]) + (if IsSeed(g, w) then [w] else [])
  }

  /** One seed for each orbit of words with k ones, ascending. */
  function Seeds(g: Group, k: nat): seq<nat>
    requires |g.ops| > 0
  {
    SeedsAmong(g, Words(g.n, k))
  }

  ghost predicate Ascending(s: seq<nat>) {
    forall i, j :: 0 <= i < j < |s| ==> s[i] < s[j]
  }

  lemma WordsAreAscending(n: nat, k: nat)
    ensures Ascending(Words(n, k))
  {
    forall i, j | 0 <= i < j < |Words(n, k)| ensures Words(n, k)[i] < Words(n, k)[j] {
      WordsAscending(n, k, i, j);
    }
  }

  lemma {:induction false} SeedsAmongFacts(g: Group, ws: seq<nat>)
    requires |g.ops| > 0 && Ascending(ws)
    ensures Ascending(SeedsAmong(g, ws))
    ensures forall w :: w in SeedsAmong(g, ws) <==> w in ws && IsSeed(g, w)
  {
    if ws != [] {
      var front, last := ws[..|ws| - 1], ws[|ws| - 1];
      SeedsAmongFacts(g, front);
      assert ws == front + [last];
      assert forall w :: w in front ==> w < last;
      if IsSeed(g, last) {
        AscendingAppend(SeedsAmong(g, front), last);
      }
    }
  }

  lemma AscendingAppend(s: seq<nat>, x: nat)
    requires Ascending(s) && forall w :: w in s ==> w < x
    ensures Ascending(s + [x])
  {
    forall i, j | 0 <= i < j < |s + [x]| ensures (s + [x])[i] < (s + [x])[j] {
      if j == |s| { assert s[i] in s; }
    }
  }

  lemma WordMember(n: nat, k: nat, w: nat)
    ensures w in Words(n, k) <==> w < Pow2(n) && Ones(w) == k
  {
    if w in Words(n, k) {
      var i :| 0 <= i < |Words(n, k)| && Words(n, k)[i] == w;
      WordsSound(n, k, i);
    }
    if w < Pow2(n) && Ones(w) == k {
      var i := WordsComplete(n, w);
    }
  }

  lemma SeedMember(g: Group, k: nat, w: nat)
    requires g.Valid()
    ensures w in Seeds(g, k) <==> w < Pow2(g.n) && Ones(w) == k && IsSeed(g, w)
  {
    WordsAreAscending(g.n, k);
    SeedsAmongFacts(g, Words(g.n, k));
    WordMember(g.n, k, w);
  }

  lemma LeastInSeeds(g: Group, w: nat)
    requires g.Valid() && w < Pow2(g.n)
    ensures Least(g, w) in Seeds(g, Ones(w)) && Least(g, w) < Pow2(g.n)
  {
    var i := LeastIsMin(g, w);
    TFacts(g, i, w);
    LeastInvariant(g, i, w);
    SeedMember(g, Ones(w), Least(g, w));
  }

  lemma SeedsAreAscending(g: Group, k: nat)
    requires |g.ops| > 0
    ensures Ascending(Seeds(g, k))
  {
    WordsAreAscending(g.n, k);
    SeedsAmongFacts(g, Words(g.n, k));
  }

  // ---------------------------------------------------------------- numbering seed boards

  /** The position of x in s. */
  function Position(s: seq<nat>, x: nat): (i: nat)
    requires x in s
    ensures i < |s| && s[i] == x
  {
    if s[0] == x then 0 else 1 + Position(s[1..], x)
  }

  lemma PositionUnique(s: seq<nat>, i: nat)
    requires Ascending(s) && i < |s|
    ensures Position(s, s[i]) == i
  {}

  function HashCount(g: Group, whites: nat, blacks: nat): nat
    requires |g.ops| > 0 && whites <= g.n
  {
    |Seeds(g, whites)| * Binomial(g.n - whites, blacks)
  }

  /** The board numbered h. */
  function InverseBoard(g: Group, whites: nat, blacks: nat, h: nat): nat
    requires |g.ops| > 0 && whites <= g.n && h < HashCount(g, whites, blacks)
  {
    SplitIndex(g, whites, blacks, h);
    var m := Binomial(g.n - whites, blacks);
    var w := Seeds(g, whites)[h / m];
    Pack(g.n, w, Expand(w, Words(g.n - whites, blacks)[h % m], g.n))
  }

  lemma SplitIndex(g: Group, whites: nat, blacks: nat, h: nat)
    requires |g.ops| > 0 && whites <= g.n && h < HashCount(g, whites, blacks)
    ensures var m := Binomial(g.n - whites, blacks);
            m > 0 && h / m < |Seeds(g, whites)| && h % m < |Words(g.n - whites, blacks)|
  {
    var s, m := |Seeds(g, whites)|, Binomial(g.n - whites, blacks);
    WordsCount(g.n - whites, blacks);
    QuotientBound(h, s, m);
  }

  lemma ProductOrder(q: int, s: int, m: int)
    requires m >= 0 && q * m < s * m
    ensures q < s
  {
    assert (s - q) * m > 0;
  }

  lemma FactorPositive(s: nat, m: nat)
    requires s * m > 0
    ensures m > 0
  {}

  lemma QuotientBound(h: nat, s: nat, m: nat)
    requires h < s * m
    ensures m > 0 && h / m < s
  {
    FactorPositive(s, m);
    assert h == (h / m) * m + h % m;
    ProductOrder(h / m, s, m);
  }

  /** The white and black words of a board are listed in the tables the index reads. */
  lemma BoardIsListed(g: Group, whites: nat, blacks: nat, a: nat)
    requires g.Valid() && whites <= g.n && IsBoard(g.n, whites, blacks, a)
    ensures White(g.n, a) < Pow2(g.n)
    ensures Least(g, White(g.n, a)) in Seeds(g, whites)
    ensures Compact(White(g.n, a), Black(g.n, a), g.n) in Words(g.n - whites, blacks)
  {
    hide Words, Seeds, Expand, Compact, And, Ones, Pow2, Group.Valid, Low, Shr;
    var w, b := White(g.n, a), Black(g.n, a);
    LowBound(a, g.n);
    LeastInSeeds(g, w);
    ExpandCompact(w, b, g.n);
    WordMember(g.n - whites, blacks, Compact(w, b, g.n));
  }

  /** Entry q of the p-th block of m. */
  function Number(p: nat, q: nat, m: nat): nat { p * m + q }

  lemma NumberSplits(p: nat, q: nat, m: nat, s: nat)
    requires p < s && q < m
    ensures Number(p, q, m) / m == p && Number(p, q, m) % m == q && Number(p, q, m) < s * m
  {
    DivUnique(p * m + q, m, p, q);
    IndexBound(p, q, s, m);
  }

  lemma NumberJoins(h: nat, m: nat)
    requires m > 0
    ensures Number(h / m, h % m, m) == h
  {}

  /** direct_hash_index: the number of a board, with no transformation applied. */
  function DirectIndex(g: Group, whites: nat, blacks: nat, a: nat): nat
    requires g.Valid() && whites <= g.n && IsBoard(g.n, whites, blacks, a)
  {
    BoardIsListed(g, whites, blacks, a);
    var w, b := White(g.n, a), Black(g.n, a);
    Number(Position(Seeds(g, whites), Least(g, w)), Position(Words(g.n - whites, blacks), Compact(w, b, g.n)),
           Binomial(g.n - whites, blacks))
  }

  lemma DirectIndexParts(g: Group, whites: nat, blacks: nat, a: nat)
    requires g.Valid() && whites <= g.n && IsBoard(g.n, whites, blacks, a)
    ensures Least(g, White(g.n, a)) in Seeds(g, whites)
    ensures Compact(White(g.n, a), Black(g.n, a), g.n) in Words(g.n - whites, blacks)
    ensures var m, h := Binomial(g.n - whites, blacks), DirectIndex(g, whites, blacks, a);
            && m > 0 && h < HashCount(g, whites, blacks)
            && h / m == Position(Seeds(g, whites), Least(g, White(g.n, a)))
            && h % m == Position(Words(g.n - whites, blacks), Compact(White(g.n, a), Black(g.n, a), g.n))
  {
    hide Words, Seeds, Position, Binomial, Expand, Compact, And, Ones, Pow2, Group.Valid, Low, Shr, Number, Least;
    BoardIsListed(g, whites, blacks, a);
    WordsCount(g.n - whites, blacks);
    var m := Binomial(g.n - whites, blacks);
    var p := Position(Seeds(g, whites), Least(g, White(g.n, a)));
    var q := Position(Words(g.n - whites, blacks), Compact(White(g.n, a), Black(g.n, a), g.n));
    NumberSplits(p, q, m, |Seeds(g, whites)|);
  }

  lemma IndexBound(p: nat, q: nat, s: nat, m: nat)
    requires p < s && q < m
    ensures p * m + q < s * m
  {
    assert (p + 1) * m <= s * m;
  }

  /** Numbering a seed board and reading the number back returns exactly that board. */
  lemma InverseOfDirect(g: Group, whites: nat, blacks: nat, a: nat)
    requires g.Valid() && whites <= g.n && IsBoard(g.n, whites, blacks, a) && IsSeed(g, White(g.n, a))
    ensures DirectIndex(g, whites, blacks, a) < HashCount(g, whites, blacks)
    ensures InverseBoard(g, whites, blacks, DirectIndex(g, whites, blacks, a)) == a
  {
    hide Words, Seeds, Position, Binomial, Expand, Compact, And, Ones, Pow2, Group.Valid, Least, Low, Shr;
    DirectIndexParts(g, whites, blacks, a);
    var w, b := White(g.n, a), Black(g.n, a);
    LowBound(a, g.n);
    ExpandCompact(w, b, g.n);
    PartsPack(g.n, a);
  }

  /** Every number below the count names a seed board, whose number it is. */
  lemma DirectOfInverse(g: Group, whites: nat, blacks: nat, h: nat)
    requires g.Valid() && whites <= g.n && h < HashCount(g, whites, blacks)
    ensures var a := InverseBoard(g, whites, blacks, h);
            && IsBoard(g.n, whites, blacks, a)
            && IsSeed(g, White(g.n, a))
            && DirectIndex(g, whites, blacks, a) == h
  {
    hide Words, Seeds, Position, Binomial, Expand, Compact, And, Ones, Pow2, Group.Valid, Low, Shr, Number,
         InverseBoard, Least;
    var w, c := InverseBoardParts(g, whites, blacks, h);
    var a := InverseBoard(g, whites, blacks, h);
    InverseBoardOf(g, whites, blacks, w, c);
    SeedsAreAscending(g, whites);
    WordsAreAscending(g.n - whites, blacks);
    NumberOf(Seeds(g, whites), Words(g.n - whites, blacks), Binomial(g.n - whites, blacks), h);
  }

  lemma NumberOf(seeds: seq<nat>, words: seq<nat>, m: nat, h: nat)
    requires Ascending(seeds) && Ascending(words)
    requires m > 0 && h / m < |seeds| && h % m < |words|
    ensures Number(Position(seeds, seeds[h / m]), Position(words, words[h % m]), m) == h
  {
    hide Position, Number;
    PositionUnique(seeds, h / m);
    PositionUnique(words, h % m);
    NumberJoins(h, m);
  }

  lemma InverseBoardParts(g: Group, whites: nat, blacks: nat, h: nat) returns (w: nat, c: nat)
    requires g.Valid() && whites <= g.n && h < HashCount(g, whites, blacks)
    ensures var m := Binomial(g.n - whites, blacks);
            && m > 0 && h / m < |Seeds(g, whites)| && h % m < |Words(g.n - whites, blacks)|
            && w == Seeds(g, whites)[h / m] && c == Words(g.n - whites, blacks)[h % m]
    ensures InverseBoard(g, whites, blacks, h) == Pack(g.n, w, Expand(w, c, g.n))
    ensures w in Seeds(g, whites) && c < Pow2(g.n - whites) && Ones(c) == blacks
  {
    hide Words, Seeds, Binomial, Expand, Ones, Pow2, Group.Valid, Pack;
    SplitIndex(g, whites, blacks, h);
    var m := Binomial(g.n - whites, blacks);
    w, c := Seeds(g, whites)[h / m], Words(g.n - whites, blacks)[h % m];
    WordsSound(g.n - whites, blacks, h % m);
  }

  lemma InverseBoardOf(g: Group, whites: nat, blacks: nat, w: nat, c: nat)
    requires g.Valid() && whites <= g.n && w in Seeds(g, whites)
    requires c < Pow2(g.n - whites) && Ones(c) == blacks
    ensures var a := Pack(g.n, w, Expand(w, c, g.n));
            && IsBoard(g.n, whites, blacks, a)
            && Least(g, w) == w == White(g.n, a)
            && Compact(w, Black(g.n, a), g.n) == c
  {
    hide Words, Seeds, Expand, Compact, And, Ones, Pow2, Group.Valid, Low, Shr, Pack, Least;
    SeedMember(g, whites, w);
    CompactExpand(w, c, g.n);
    PackParts(g.n, w, Expand(w, c, g.n));
  }

  /** Different seed boards have different numbers. */
  lemma DirectIndexInjective(g: Group, whites: nat, blacks: nat, a: nat, b: nat)
    requires g.Valid() && whites <= g.n
    requires IsBoard(g.n, whites, blacks, a) && IsSeed(g, White(g.n, a))
    requires IsBoard(g.n, whites, blacks, b) && IsSeed(g, White(g.n, b))
    ensures DirectIndex(g, whites, blacks, a) == DirectIndex(g, whites, blacks, b) <==> a == b
  {
    InverseOfDirect(g, whites, blacks, a);
    InverseOfDirect(g, whites, blacks, b);
  }

  lemma PositionOrder(s: seq<nat>, x: nat, y: nat)
    requires Ascending(s) && x in s && y in s
    ensures Position(s, x) < Position(s, y) <==> x < y
    ensures Position(s, x) == Position(s, y) <==> x == y
  {
    hide Position;
  }

  lemma LaterBlock(q: nat, s: nat, m: nat)
    requires q < s
    ensures q * m + m <= s * m
  {
    assert s * m == q * m + m + (s - q - 1) * m;
  }

  lemma BlockOrder(q: nat, c: nat, s: nat, d: nat, m: nat)
    requires c < m && d < m
    ensures q * m + c < s * m + d <==> q < s || (q == s && c < d)
  {
    if q < s { LaterBlock(q, s, m); }
    if s < q { LaterBlock(s, q, m); }
  }

  lemma DivParts(h: nat, m: nat) returns (q: nat, c: nat)
    requires m > 0
    ensures q == h / m && c == h % m && c < m && q * m + c == h
  {
    q, c := h / m, h % m;
  }

  lemma NumberOrder(h: nat, k: nat, m: nat)
    requires m > 0
    ensures h < k <==> h / m < k / m || (h / m == k / m && h % m < k % m)
  {
    var q, c := DivParts(h, m);
    var s, d := DivParts(k, m);
    BlockOrder(q, c, s, d, m);
  }

  /** The numbering is in order: by white word, and for one white word by squeezed black word. */
  lemma DirectIndexOrder(g: Group, whites: nat, blacks: nat, a: nat, b: nat)
    requires g.Valid() && whites <= g.n
    requires IsBoard(g.n, whites, blacks, a) && IsSeed(g, White(g.n, a))
    requires IsBoard(g.n, whites, blacks, b) && IsSeed(g, White(g.n, b))
    ensures DirectIndex(g, whites, blacks, a) < DirectIndex(g, whites, blacks, b)
       <==> || White(g.n, a) < White(g.n, b)
            || (White(g.n, a) == White(g.n, b)
                && Compact(White(g.n, a), Black(g.n, a), g.n) < Compact(White(g.n, b), Black(g.n, b), g.n))
  {
    hide Group.Valid, Seeds, Words, Position, Compact, Binomial, DirectIndex, IsBoard, Ascending, HashCount, Low, Shr;
    DirectIndexParts(g, whites, blacks, a);
    DirectIndexParts(g, whites, blacks, b);
    SeedsAreAscending(g, whites);
    WordsAreAscending(g.n - whites, blacks);
    SeedIsLeast(g, White(g.n, a));
    SeedIsLeast(g, White(g.n, b));
    PositionOrder(Seeds(g, whites), White(g.n, a), White(g.n, b));
    PositionOrder(Words(g.n - whites, blacks), Compact(White(g.n, a), Black(g.n, a), g.n),
                  Compact(White(g.n, b), Black(g.n, b), g.n));
    NumberOrder(DirectIndex(g, whites, blacks, a), DirectIndex(g, whites, blacks, b),
                Binomial(g.n - whites, blacks));
  }

  lemma SeedIsLeast(g: Group, w: nat)
    requires |g.ops| > 0 && IsSeed(g, w)
    ensures Least(g, w) == w
  {}
}
