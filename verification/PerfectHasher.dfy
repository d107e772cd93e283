/** The Rust index: its construction loops, the probe loop over recorded operations,
    and the two direct conversions. */
module PerfectHasher {
  import opened Bits
  import opened Subsets
  import opened Collapse
  import opened Symmetry
  import opened Orbits
  import opened OrbitEntry
  import opened Canonical

  /** index numbers the orbit; bit op of transforms is set when op maps the word to the seed. */
  datatype WhiteEntry = WhiteEntry(index: nat, transforms: nat)

  datatype Hasher = Hasher(g: Group, whites: nat, blacks: nat, positionsPerWhite: nat,
                           whiteLookup: map<nat, WhiteEntry>, blackRank: map<nat, nat>,
                           whiteInverse: seq<nat>, blackInverse: seq<nat>)
  {
    ghost predicate Valid()
      ensures Valid() ==> g.Valid() && whites <= g.n <= POINTS
    {
      && g.Valid() && whites + blacks <= g.n <= POINTS
      && positionsPerWhite == Binomial(g.n - whites, blacks)
      && whiteInverse == Seeds(g, whites)
      && blackInverse == Words(g.n - whites, blacks)
      && WhiteTable(g, whites, whiteLookup, whiteInverse)
      && RankTable(blackRank, blackInverse)
    }

    /** hash_count. */
    function HashCountOf(): nat {
      |whiteInverse| * positionsPerWhite
    }
  }

  ghost predicate EntryOf(g: Group, w: nat, e: WhiteEntry, seeds: seq<nat>)
    requires |g.ops| > 0
  {
    e.index < |seeds| && seeds[e.index] == Least(g, w) && ExactTransforms(g, w, e.transforms)
  }

  /** Every word of k ones whose seed is listed has its entry, and no other word has one. */
  ghost predicate WhiteTable(g: Group, k: nat, lookup: map<nat, WhiteEntry>, seeds: seq<nat>)
    requires |g.ops| > 0
  {
    && (forall w: nat :: w in lookup <==> w < Pow2(g.n) && Ones(w) == k && Least(g, w) in seeds)
    && (forall w :: w in lookup ==> EntryOf(g, w, lookup[w], seeds))
  }

  ghost predicate RankTable(rank: map<nat, nat>, words: seq<nat>) {
    && (forall w :: w in words <==> w in rank)
    && (forall w :: w in rank ==> rank[w] < |words| && words[rank[w]] == w)
  }

  // ---------------------------------------------------------------- building the white table

  /** The table while the orbit of white, numbered index, is being entered by the first k operations. */
  ghost predicate Entering(g: Group, white: nat, index: nat, k: nat, before: map<nat, WhiteEntry>,
          now: map<nat, WhiteEntry>)
    requires k <= |g.ops| == |g.inv|
  {
    && (forall v :: v in now <==> v in before || Reached(g, white, v, k))
    && (forall v :: v in before ==> v in now && now[v] == before[v])
    && (forall v :: Reached(g, white, v, k) ==>
          v in now && now[v].index == index && Collected(g, white, v, k, now[v].transforms))
  }

  /** The inner loop: enter white's whole orbit. Its assertion that no word is already in
      an earlier orbit is the requires that the seeds of earlier entries differ. */
  method EnterOrbit(g: Group, white: nat, index: nat, before: map<nat, WhiteEntry>)
    returns (lookup: map<nat, WhiteEntry>)
    requires g.Valid()
    requires forall i: nat :: i < |g.ops| ==> g.T(i, white) !in before
    ensures Entering(g, white, index, |g.ops|, before, lookup)
  {
    lookup := before;
    for op := 0 to |g.ops|
      invariant Entering(g, white, index, op, before, lookup)
    {
      var transformed := g.T(op, white);
      var entry := if transformed in lookup then lookup[transformed] else WhiteEntry(index, 0);
      assert entry.index == index;
      if !Reached(g, white, transformed, op) {
        NothingCollected(g, white, transformed, op);
      }
      EnteringStep(g, white, index, op, before, lookup, entry);
      lookup := lookup[transformed := WhiteEntry(entry.index, Or(entry.transforms, Pow2(g.inv[op])))];
    }
  }

  lemma EnteringStep(g: Group, white: nat, index: nat, k: nat, before: map<nat, WhiteEntry>,
                     now: map<nat, WhiteEntry>, entry: WhiteEntry)
    requires g.Valid() && k < |g.ops| && Entering(g, white, index, k, before, now)
    requires g.T(k, white) !in before && entry.index == index
    requires g.T(k, white) in now ==> entry == now[g.T(k, white)]
    requires Collected(g, white, g.T(k, white), k, entry.transforms)
    ensures Entering(g, white, index, k + 1, before,
                     now[g.T(k, white) := WhiteEntry(index, Or(entry.transforms, Pow2(g.inv[k])))])
  {
    var t := g.T(k, white);
    var next := now[t := WhiteEntry(index, Or(entry.transforms, Pow2(g.inv[k])))];
    CollectedStep(g, white, t, k, entry.transforms);
    forall v ensures Reached(g, white, v, k + 1) <==> v == t || Reached(g, white, v, k) {
      if v == t { assert k < k + 1 && g.T(k, white) == v; }
    }
    hide Group.T, Collected, Group.Valid, Reached;
    forall v | Reached(g, white, v, k + 1)
      ensures v in next && next[v].index == index && Collected(g, white, v, k + 1, next[v].transforms)
    {
      if v != t {
        CollectedElsewhere(g, white, v, k, now[v].transforms);
      }
    }
  }

  /** A word with no entry yet is the seed of a new orbit; one with an entry is not a seed. */
  lemma UnseenIsSeed(g: Group, k: nat, ws: seq<nat>, c: nat, lookup: map<nat, WhiteEntry>)
    requires g.Valid() && ws == Words(g.n, k) && c < |ws|
    requires WhiteTable(g, k, lookup, SeedsAmong(g, ws[..c]))
    ensures ws[c] < Pow2(g.n) && Ones(ws[c]) == k
    ensures ws[c] in lookup <==> !IsSeed(g, ws[c])
    ensures ws[c] !in lookup ==> ws[c] !in SeedsAmong(g, ws[..c])
  {
    var w := ws[c];
    WordsSound(g.n, k, c);
    WordsAreAscending(g.n, k);
    SeedsAmongFacts(g, ws[..c]);
    assert w !in ws[..c];
    var op := LeastIsMin(g, w);
    TIdentity(g, w);
    TFacts(g, op, w);
    LeastInvariant(g, op, w);
    var i := WordsComplete(g.n, Least(g, w));
    if i < c {
      assert ws[..c][i] == Least(g, w);
      assert Least(g, w) in ws[..c];
    }
  }

  lemma OrbitEntered(g: Group, k: nat, ws: seq<nat>, c: nat, before: map<nat, WhiteEntry>, now: map<nat, WhiteEntry>)
    requires g.Valid() && c < |ws| && ws[c] < Pow2(g.n) && Ones(ws[c]) == k
    requires IsSeed(g, ws[c])
    requires WhiteTable(g, k, before, SeedsAmong(g, ws[..c]))
    requires Entering(g, ws[c], |SeedsAmong(g, ws[..c])|, |g.ops|, before, now)
    ensures SeedsAmong(g, ws[..c + 1]) == SeedsAmong(g, ws[..c]) + [ws[c]]
    ensures WhiteTable(g, k, now, SeedsAmong(g, ws[..c + 1]))
  {
    var white, seeds := ws[c], SeedsAmong(g, ws[..c]);
    assert ws[..c + 1][..c] == ws[..c];
    forall v: nat ensures Reached(g, white, v, |g.ops|) <==> v < Pow2(g.n) && Ones(v) == k && Least(g, v) == white {
      ReachedIsOrbit(g, k, white, v);
    }
    forall v | v in now ensures EntryOf(g, v, now[v], seeds + [white]) {
      if v in before {
        assert EntryOf(g, v, before[v], seeds);
      } else {
        CollectedIsExact(g, white, v, now[v].transforms);
      }
    }
  }

  /** build_white_lookup. */
  method BuildWhiteLookup(g: Group, k: nat) returns (lookup: map<nat, WhiteEntry>, inverse: seq<nat>)
    requires g.Valid() && k <= g.n <= POINTS
    ensures inverse == Seeds(g, k)
    ensures WhiteTable(g, k, lookup, inverse)
  {
    lookup, inverse := map[], [];
    var ws := CombinationMasks(g.n, k);
    for c := 0 to |ws|
      invariant inverse == SeedsAmong(g, ws[..c])
      invariant WhiteTable(g, k, lookup, inverse)
    {
      hide *;
      UnseenIsSeed(g, k, ws, c, lookup);
      var white := ws[c];
      if white in lookup {
        OrbitSkipped(g, ws, c);
      } else {
        OrbitIsNew(g, k, white, lookup, inverse);
        ghost var before := lookup;
        lookup := EnterOrbit(g, white, |inverse|, lookup);
        OrbitEntered(g, k, ws, c, before, lookup);
        inverse := inverse + [white];
      }
    }
    assert ws[..|ws|] == ws;
  }

  lemma OrbitIsNew(g: Group, k: nat, white: nat, lookup: map<nat, WhiteEntry>, seeds: seq<nat>)
    requires g.Valid() && white < Pow2(g.n) && IsSeed(g, white) && white !in seeds
    requires WhiteTable(g, k, lookup, seeds)
    ensures forall i: nat :: i < |g.ops| ==> g.T(i, white) !in lookup
  {
    forall i: nat | i < |g.ops| ensures g.T(i, white) !in lookup {
      LeastInvariant(g, i, white);
    }
  }

  // ---------------------------------------------------------------- the hasher

  /** PerfectHasher::new; its two assertions are the requires. */
  method New(g: Group, whites: nat, blacks: nat) returns (h: Hasher)
    requires g.Valid() && g.n <= POINTS
    requires whites + blacks <= g.n
    ensures h.Valid() && h.g == g && h.whites == whites && h.blacks == blacks
    ensures h.HashCountOf() == HashCount(g, whites, blacks)
  {
    hide *;
    var lookup, inverse := BuildWhiteLookup(g, whites);
    var words := CombinationMasks(g.n - whites, blacks);
    var rank := RankWords(words);
    var positions := BinomByProduct(g.n - whites, blacks);
    h := Hasher(g, whites, blacks, positions, lookup, rank, inverse, words);
    HasherIsValid(h, words);
  }

  lemma HasherIsValid(h: Hasher, words: seq<nat>)
    requires h.g.Valid() && h.whites + h.blacks <= h.g.n <= POINTS
    requires h.positionsPerWhite == Binomial(h.g.n - h.whites, h.blacks)
    requires h.whiteInverse == Seeds(h.g, h.whites)
    requires h.blackInverse == Words(h.g.n - h.whites, h.blacks)
    requires WhiteTable(h.g, h.whites, h.whiteLookup, h.whiteInverse) && RankTable(h.blackRank, h.blackInverse)
    ensures h.Valid() && h.HashCountOf() == HashCount(h.g, h.whites, h.blacks)
  {
    hide Binomial, Seeds, Words, WhiteTable, RankTable, Group.Valid;
  }

  method RankWords(words: seq<nat>) returns (rank: map<nat, nat>)
    ensures RankTable(rank, words)
  {
    rank := map[];
    for index := 0 to |words|
      invariant RankTable(rank, words[..index])
    {
      RankStep(words, index, rank);
      rank := rank[words[index] := index];
    }
    assert words[..|words|] == words;
  }

  lemma RankStep(words: seq<nat>, index: nat, before: map<nat, nat>)
    requires index < |words| && RankTable(before, words[..index])
    ensures RankTable(before[words[index] := index], words[..index + 1])
  {
    assert words[..index + 1] == words[..index] + [words[index]];
    forall w | w in before && w != words[index] ensures words[..index + 1][before[w]] == w {
      assert words[..index][before[w]] == w;
    }
  }

  /** What the tables say about a board: its orbit number and its black rank. */
  lemma TablesIndex(h: Hasher, a: nat)
    requires h.Valid() && IsBoard(h.g.n, h.whites, h.blacks, a)
    ensures White(h.g.n, a) in h.whiteLookup
    ensures Compact(White(h.g.n, a), Black(h.g.n, a), h.g.n) in h.blackRank
    ensures DirectIndex(h.g, h.whites, h.blacks, a)
         == Number(h.whiteLookup[White(h.g.n, a)].index,
                   h.blackRank[Compact(White(h.g.n, a), Black(h.g.n, a), h.g.n)], h.positionsPerWhite)
  {
    hide Hasher.Valid, Words, Seeds, Group.Valid, Position, Number, Compact, Low, Shr, Pow2, Ones, Binomial, And,
         Least, IsBoard;
    var w, c := White(h.g.n, a), Compact(White(h.g.n, a), Black(h.g.n, a), h.g.n);
    ValidParts(h);
    BoardIsListed(h.g, h.whites, h.blacks, a);
    WhiteCount(h.g, h.whites, h.blacks, a);
    TablesAreLists(h);
    EntryNumber(h, w);
    RankNumber(h, c);
  }

  lemma ValidParts(h: Hasher)
    requires h.Valid()
    ensures h.g.Valid() && h.whites + h.blacks <= h.g.n <= POINTS
  {
    hide Words, Seeds, Binomial, WhiteTable, RankTable, Group.Valid;
  }

  lemma WhiteCount(g: Group, whites: nat, blacks: nat, a: nat)
    requires IsBoard(g.n, whites, blacks, a)
    ensures Ones(White(g.n, a)) == whites
  {
    hide Ones, Low, Shr;
  }

  lemma TablesAreLists(h: Hasher)
    requires h.Valid()
    ensures h.whiteInverse == Seeds(h.g, h.whites) && h.blackInverse == Words(h.g.n - h.whites, h.blacks)
    ensures h.positionsPerWhite == Binomial(h.g.n - h.whites, h.blacks)
  {
    hide Words, Seeds, Binomial, WhiteTable, RankTable, Group.Valid;
  }

  lemma EntryNumber(h: Hasher, w: nat)
    requires h.Valid() && w < Pow2(h.g.n) && Ones(w) == h.whites && Least(h.g, w) in h.whiteInverse
    ensures w in h.whiteLookup && Position(h.whiteInverse, Least(h.g, w)) == h.whiteLookup[w].index
  {
    SeedsAreAscending(h.g, h.whites);
    hide Words, Seeds, Binomial, Group.Valid, RankTable, Position, Ascending, Least, Ones, Pow2, ExactTransforms;
    assert EntryOf(h.g, w, h.whiteLookup[w], h.whiteInverse);
    PositionUnique(h.whiteInverse, h.whiteLookup[w].index);
  }

  lemma RankNumber(h: Hasher, c: nat)
    requires h.Valid() && c in h.blackInverse
    ensures c in h.blackRank && Position(h.blackInverse, c) == h.blackRank[c]
  {
    WordsAreAscending(h.g.n - h.whites, h.blacks);
    hide Words, Seeds, Binomial, Group.Valid, WhiteTable, Position, Ascending;
    PositionUnique(h.blackInverse, h.blackRank[c]);
  }

  /** direct_hash_index; the assertions on the stone counts are the requires. */
  method DirectHashIndex(h: Hasher, board: nat) returns (index: nat)
    requires h.Valid() && IsBoard(h.g.n, h.whites, h.blacks, board)
    ensures index == DirectIndex(h.g, h.whites, h.blacks, board)
  {
    TablesIndex(h, board);
    var compact := CollapseLoop(h.g.n, board);
    index := Number(h.whiteLookup[White(h.g.n, board)].index, h.blackRank[compact], h.positionsPerWhite);
  }

  lemma TablesInverse(h: Hasher, index: nat) returns (p: nat, q: nat)
    requires h.Valid() && index < h.HashCountOf()
    ensures h.positionsPerWhite > 0 && p == index / h.positionsPerWhite && q == index % h.positionsPerWhite
    ensures p < |h.whiteInverse| && q < |h.blackInverse| && h.whiteInverse[p] < Pow2(h.g.n)
  {
    hide Words, Seeds, Binomial, Group.Valid, Pow2;
    SplitIndex(h.g, h.whites, h.blacks, index);
    p, q := index / h.positionsPerWhite, index % h.positionsPerWhite;
    assert h.whiteInverse[p] in h.whiteInverse;
    SeedMember(h.g, h.whites, h.whiteInverse[p]);
  }

  /** inverse_board; the assertion on the index is the requires. */
  method InverseBoardAt(h: Hasher, index: nat) returns (board: nat)
    requires h.Valid() && index < h.HashCountOf()
    ensures IsInverse(h, index, board)
  {
    ghost var p, q := TablesInverse(h, index);
    InverseIs(h, index, p, q);
    hide *;
    var white := h.whiteInverse[index / h.positionsPerWhite];
    var compact := h.blackInverse[index % h.positionsPerWhite];
    PackParts(h.g.n, white, compact);
    board := UncollapseLoop(h.g.n, Pack(h.g.n, white, compact));
  }

  ghost predicate IsInverse(h: Hasher, index: nat, board: nat)
    requires h.Valid()
  {
    index < HashCount(h.g, h.whites, h.blacks) && board == InverseBoard(h.g, h.whites, h.blacks, index)
  }

  lemma InverseIs(h: Hasher, index: nat, p: nat, q: nat)
    requires h.Valid() && index < h.HashCountOf()
    requires h.positionsPerWhite > 0 && p == index / h.positionsPerWhite && q == index % h.positionsPerWhite
    requires p < |h.whiteInverse| && q < |h.blackInverse|
    ensures IsInverse(h, index, Pack(h.g.n, h.whiteInverse[p], Expand(h.whiteInverse[p], h.blackInverse[q], h.g.n)))
  {
    hide Words, Seeds, Binomial, Group.Valid, Expand, Pack;
  }

  // ---------------------------------------------------------------- the probe loop

  function TrailingZeros(x: nat): nat
    requires x > 0
  {
    if x % 2 == 1 then 0 else 1 + TrailingZeros(x / 2)
  }

  lemma {:induction false} TrailingZerosIsLowest(x: nat)
    requires x > 0
    ensures Bit(x, TrailingZeros(x))
    ensures forall j: nat :: j < TrailingZeros(x) ==> !Bit(x, j)
  {
    if x % 2 == 0 {
      TrailingZerosIsLowest(x / 2);
      forall j: nat | j < TrailingZeros(x) ensures !Bit(x, j) {
        if j > 0 { assert Bit(x, j) == Bit(x / 2, j - 1); }
      }
    }
  }

  /** `ops &= ops - 1` clears the lowest one bit and no other. */
  lemma {:induction false} ClearLowest(x: nat, j: nat)
    requires x > 0
    ensures Bit(And(x, x - 1), j) <==> Bit(x, j) && j != TrailingZeros(x)
    ensures And(x, x - 1) < x
    decreases x
  {
    AndBit(x, x - 1, j);
    AndAtMost(x, x - 1);
    if x % 2 == 1 {
      assert (x - 1) / 2 == x / 2;
      if j > 0 { assert Bit(x - 1, j) == Bit(x / 2, j - 1); }
    } else {
      assert (x - 1) / 2 == x / 2 - 1;
      if j > 0 {
        ClearLowest(x / 2, j - 1);
        AndBit(x / 2, x / 2 - 1, j - 1);
      }
    }
  }

  datatype Probe = Probe(index: nat, canonicalBoard: nat)

  /** What the probe loop keeps: the operations below t are done, those from t on are
      still in the mask. */
  ghost predicate Probing(g: Group, a: nat, t: nat, ops: nat, canonical: nat) {
    && t <= |g.ops| && canonical == CanonUpTo(g, a, t)
    && forall j: nat :: Bit(ops, j) <==> t <= j < |g.ops| && ToSeed(g, a, j)
  }

  lemma ProbingStep(g: Group, a: nat, t: nat, ops: nat, canonical: nat) returns (op: nat)
    requires Probing(g, a, t, ops, canonical) && ops > 0
    ensures op == TrailingZeros(ops) && op < |g.ops|
    ensures And(ops, ops - 1) < ops
    ensures Probing(g, a, op + 1, And(ops, ops - 1),
                    if g.T48(op, a) < canonical then g.T48(op, a) else canonical)
  {
    op := TrailingZeros(ops);
    TrailingZerosIsLowest(ops);
    forall j: nat ensures Bit(And(ops, ops - 1), j) <==> Bit(ops, j) && j != op {
      ClearLowest(ops, j);
    }
    ClearLowest(ops, 0);
    hide Group.T48, ToSeed, Bit, And, TrailingZeros, CanonUpTo;
    CanonSkips(g, a, t, op);
    CanonTakes(g, a, op);
  }

  lemma ProbingEnds(g: Group, a: nat, t: nat, canonical: nat)
    requires Probing(g, a, t, 0, canonical)
    ensures canonical == Canon(g, a)
  {
    forall j: nat ensures !Bit(0, j) { ZeroBit(j); }
    hide ToSeed, Bit, CanonUpTo;
    CanonSkips(g, a, t, |g.ops|);
  }

  /** The recorded mask of a board's white word is what the loop starts from. */
  lemma CanonStarts(g: Group, a: nat)
    ensures CanonUpTo(g, a, 0) == Pow2(64) - 1
  {}

  lemma ProbingStarts(h: Hasher, a: nat)
    requires h.Valid() && IsBoard(h.g.n, h.whites, h.blacks, a) && White(h.g.n, a) in h.whiteLookup
    ensures Probing(h.g, a, 0, h.whiteLookup[White(h.g.n, a)].transforms, Pow2(64) - 1)
  {
    CanonStarts(h.g, a);
    hide Pow2, Group.T, Bit, Group.Valid, Least, Low, IsBoard, CanonUpTo, Canon;
    var w := White(h.g.n, a);
    assert EntryOf(h.g, w, h.whiteLookup[w], h.whiteInverse);
  }

  /** hash_probe; the assertions on the stone counts are the requires. */
  method HashProbe(h: Hasher, board: nat) returns (p: Probe)
    requires h.Valid() && IsBoard(h.g.n, h.whites, h.blacks, board)
    ensures p.canonicalBoard == Canon(h.g, board)
    ensures p.index == ProbeIndex(h.g, h.whites, h.blacks, board)
  {
    hide *;
    TablesIndex(h, board);
    ProbingStarts(h, board);
    CanonIsSeedBoard(h.g, h.whites, h.blacks, board);
    CanonIndexParts(h, board);
    var entry := h.whiteLookup[White(h.g.n, board)];
    var ops: nat, canonical: nat := entry.transforms, Pow2(64) - 1;
    ghost var t := 0;
    while ops != 0
      invariant Probing(h.g, board, t, ops, canonical)
      decreases ops
    {
      ghost var step := ProbingStep(h.g, board, t, ops, canonical);
      var op := TrailingZeros(ops);
      ops := And(ops, ops - 1);
      var candidate := h.g.T48(op, board);
      canonical := if candidate < canonical then candidate else canonical;
      t := op + 1;
    }
    ProbingEnds(h.g, board, t, canonical);
    var compact := CollapseLoop(h.g.n, canonical);
    p := Probe(Number(entry.index, h.blackRank[compact], h.positionsPerWhite), canonical);
  }

  lemma {:induction false} CanonSkips(g: Group, a: nat, t: nat, k: nat)
    requires t <= k <= |g.ops|
    requires forall j: nat :: t <= j < k ==> !ToSeed(g, a, j)
    ensures CanonUpTo(g, a, k) == CanonUpTo(g, a, t)
    decreases k
  {
    if t < k { CanonSkips(g, a, t, k - 1); }
  }

  lemma CanonTakes(g: Group, a: nat, k: nat)
    requires k < |g.ops| && ToSeed(g, a, k)
    ensures CanonUpTo(g, a, k + 1)
         == if g.T48(k, a) < CanonUpTo(g, a, k) then g.T48(k, a) else CanonUpTo(g, a, k)
  {}

  /** The canonical board has the orbit number of the board it came from. */
  lemma CanonIndexParts(h: Hasher, a: nat)
    requires h.Valid() && IsBoard(h.g.n, h.whites, h.blacks, a)
    ensures White(h.g.n, a) in h.whiteLookup
    ensures var c := Canon(h.g, a);
            && Compact(White(h.g.n, c), Black(h.g.n, c), h.g.n) in h.blackRank
            && ProbeIndex(h.g, h.whites, h.blacks, a)
            == Number(h.whiteLookup[White(h.g.n, a)].index,
                      h.blackRank[Compact(White(h.g.n, c), Black(h.g.n, c), h.g.n)], h.positionsPerWhite)
  {
    CanonIsSeedBoard(h.g, h.whites, h.blacks, a);
    TablesIndex(h, a);
    TablesIndex(h, Canon(h.g, a));
    SeedsAreAscending(h.g, h.whites);
    var v, w := White(h.g.n, a), White(h.g.n, Canon(h.g, a));
    hide Words, Seeds, Group.Valid, Position, Number, Compact, Low, Shr, Pow2, Ones, Binomial, And, Least, Canon;
    assert EntryOf(h.g, v, h.whiteLookup[v], h.whiteInverse);
    assert EntryOf(h.g, w, h.whiteLookup[w], h.whiteInverse);
  }
}
