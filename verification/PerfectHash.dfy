/** The C++ hash: the lookup arrays its constructor fills in nested loops, and the two
    directions computed from them. Any board group whose identity comes last will do. */
module PerfectHash {
  import opened Bits
  import opened Subsets
  import opened Collapse
  import opened Symmetry
  import opened Orbits
  import opened OrbitEntry
  import opened Evals
  import opened SectorData

  /** op takes v to its seed, and does nothing at all when v is the seed. */
  ghost predicate GoodSym(g: Group, v: nat, op: nat)
    requires |g.ops| > 0
  {
    && op < |g.ops| && g.T(op, v) == Least(g, v)
    && (IsSeed(g, v) ==> ActsAsIdentity(g, op))
  }

  ghost predicate ActsAsIdentity(g: Group, op: nat)
    requires op < |g.ops|
  {
    forall x: nat :: x < Pow2(g.n) ==> g.T(op, x) == x
  }

  ghost predicate IsWord(g: Group, k: nat, v: nat) {
    v < Pow2(g.n) && Ones(v) == k
  }

  /** op is the inverse of the last of the first k operations that takes white to v. */
  ghost predicate LastInverse(g: Group, white: nat, v: nat, k: nat, op: nat)
    requires k <= |g.ops| == |g.inv|
  {
    exists i: nat :: i < k && g.T(i, white) == v && op == g.inv[i]
                     && forall j: nat :: i < j < k ==> g.T(j, white) != v
  }

  /** The three white arrays agree on v, given the seeds found so far: an entered word has
      its orbit's number, the inverse of the last operation that takes the seed to it, and the
      exact mask of the operations to the seed; any other word still has the initial values. */
  ghost predicate Entry(g: Group, v: nat, seeds: seq<nat>, f: int, sym: nat, sym2: nat)
    requires |g.ops| > 0
  {
    if Least(g, v) in seeds then
      && 0 <= f < |seeds| && seeds[f] == Least(g, v)
      && GoodSym(g, v, sym)
      && |g.inv| == |g.ops| && LastInverse(g, Least(g, v), v, |g.ops|, sym)
      && ExactTransforms(g, v, sym2)
    else f == -1 && sym2 == 0
  }

  ghost predicate WhiteArrays(g: Group, k: nat, seeds: seq<nat>, f: array<int>, sym: array<nat>, sym2: array<nat>)
    requires |g.ops| > 0
    reads f, sym, sym2
  {
    && f.Length == sym.Length == sym2.Length == Pow2(g.n)
    && f as object != sym && f as object != sym2 && sym != sym2
    && forall v: nat :: IsWord(g, k, v) ==> Entry(g, v, seeds, f[v], sym[v], sym2[v])
  }

  // ---------------------------------------------------------------- one orbit

  /** Because the identity is visited last, the recorded operation is harmless on the seed. */
  lemma LastInverseIsGood(g: Group, white: nat, v: nat, op: nat)
    requires g.Valid() && g.IdentityLast() && white < Pow2(g.n) && v < Pow2(g.n)
    requires IsSeed(g, white) && LastInverse(g, white, v, |g.ops|, op)
    ensures Least(g, v) == white && GoodSym(g, v, op)
  {
    var i: nat :| i < |g.ops| && g.T(i, white) == v && op == g.inv[i]
                  && forall j: nat :: i < j < |g.ops| ==> g.T(j, white) != v;
    LeastInvariant(g, i, white);
    TInverse(g, i, white);
    if IsSeed(g, v) {
      TIdentity(g, white);
      assert i == g.id;
      forall x: nat | x < Pow2(g.n) ensures g.T(op, x) == x {
        TIdentity(g, x);
        TInverse(g, g.id, x);
      }
    }
  }

  ghost predicate Written(g: Group, white: nat, c: nat, v: nat, k: nat, f: int, sym: nat, sym2: nat)
    requires k <= |g.ops| == |g.inv|
  {
    f == c && LastInverse(g, white, v, k, sym) && Collected(g, white, v, k, sym2)
  }

  /** The inner loop of the first pass: give white's orbit the next number. */
  method EnterOrbit(g: Group, k: nat, ghost seeds: seq<nat>, white: nat, c: nat, f: array<int>, sym: array<nat>,
          sym2: array<nat>)
    requires g.Valid() && g.IdentityLast()
    requires IsWord(g, k, white) && IsSeed(g, white) && white !in seeds && c == |seeds|
    requires WhiteArrays(g, k, seeds, f, sym, sym2)
    modifies f, sym, sym2
    ensures WhiteArrays(g, k, seeds + [white], f, sym, sym2)
  {
    hide Group.T, Group.Valid, Group.IdentityLast, Collected, LastInverse, Reached, Pow2, Or, IsSeed, Least, GoodSym,
         ExactTransforms, Ones;
    NoneReached(g, white);
    for i := 0 to |g.ops|
      invariant forall v: nat :: v < Pow2(g.n) ==>
                  if Reached(g, white, v, i) then Written(g, white, c, v, i, f[v], sym[v], sym2[v])
                  else f[v] == old(f[v]) && sym[v] == old(sym[v]) && sym2[v] == old(sym2[v])
    {
      var sw := g.T(i, white);
      TFacts(g, i, white);
      ReachedByAll(g, white, i);
      ReachedIsOrbit(g, k, white, sw);
      assert old(sym2[sw]) == 0;
      EnterStep(g, white, c, i, sw, sym2[sw]);
      f[sw] := c;
      sym[sw] := g.inv[i];
      sym2[sw] := Or(sym2[sw], Pow2(g.inv[i]));
      forall v: nat | v < Pow2(g.n) && v != sw
        ensures Reached(g, white, v, i + 1) == Reached(g, white, v, i)
        ensures forall x: int, y: nat, z: nat ::
                  Written(g, white, c, v, i, x, y, z) ==> Written(g, white, c, v, i + 1, x, y, z)
      {
        EnterElsewhere(g, white, c, v, i);
      }
    }
    forall v: nat | IsWord(g, k, v)
      ensures Entry(g, v, seeds + [white], f[v], sym[v], sym2[v])
    {
      EntryAfter(g, k, seeds, white, v, old(f[v]), old(sym[v]), old(sym2[v]), f[v], sym[v], sym2[v]);
    }
  }

  lemma WordSize(g: Group, k: nat, v: nat)
    ensures IsWord(g, k, v) <==> v < Pow2(g.n) && Ones(v) == k
  {}

  lemma NoneReached(g: Group, white: nat)
    ensures forall v: nat :: !Reached(g, white, v, 0)
  {}

  lemma ReachedByAll(g: Group, white: nat, i: nat)
    requires i < |g.ops|
    ensures Reached(g, white, g.T(i, white), |g.ops|)
  {}

  lemma EnterStep(g: Group, white: nat, c: nat, i: nat, sw: nat, mask: nat)
    requires g.Valid() && i < |g.ops| && sw == g.T(i, white)
    requires if Reached(g, white, sw, i) then Collected(g, white, sw, i, mask) else mask == 0
    ensures Reached(g, white, sw, i + 1)
    ensures Written(g, white, c, sw, i + 1, c, g.inv[i], Or(mask, Pow2(g.inv[i])))
  {
    if !Reached(g, white, sw, i) { NothingCollected(g, white, sw, i); }
    CollectedStep(g, white, sw, i, mask);
    hide Group.T, Group.Valid, Collected;
    assert i < i + 1 && g.T(i, white) == sw;
  }

  lemma EnterElsewhere(g: Group, white: nat, c: nat, v: nat, i: nat)
    requires g.Valid() && i < |g.ops| && v != g.T(i, white)
    ensures Reached(g, white, v, i + 1) == Reached(g, white, v, i)
    ensures forall x: int, y: nat, z: nat ::
              Written(g, white, c, v, i, x, y, z) ==> Written(g, white, c, v, i + 1, x, y, z)
  {
    hide Group.T, Group.Valid;
    forall x: int, y: nat, z: nat | Written(g, white, c, v, i, x, y, z)
      ensures Written(g, white, c, v, i + 1, x, y, z)
    {
      CollectedElsewhere(g, white, v, i, z);
    }
  }

  /** A word already entered is not a seed; one not yet entered is the seed of a new orbit. */
  lemma UnenteredIsSeed(g: Group, k: nat, ws: seq<nat>, i: nat)
    requires g.Valid() && ws == Words(g.n, k) && i < |ws|
    ensures IsWord(g, k, ws[i])
    ensures Least(g, ws[i]) in SeedsAmong(g, ws[..i]) <==> !IsSeed(g, ws[i])
  {
    var w := ws[i];
    WordsSound(g.n, k, i);
    WordsAreAscending(g.n, k);
    SeedsAmongFacts(g, ws[..i]);
    assert w !in ws[..i];
    var op := LeastIsMin(g, w);
    TIdentity(g, w);
    TFacts(g, op, w);
    LeastInvariant(g, op, w);
    var j := WordsComplete(g.n, Least(g, w));
    if j < i {
      assert ws[..i][j] == Least(g, w);
    }
  }

  /** The state after a new orbit has been entered is the table of one more seed. */
  lemma EntryAfter(g: Group, k: nat, seeds: seq<nat>, white: nat, v: nat,
                   f0: int, sym0: nat, sym20: nat, f: int, sym: nat, sym2: nat)
    requires g.Valid() && g.IdentityLast() && IsWord(g, k, white) && IsSeed(g, white) && IsWord(g, k, v)
    requires white !in seeds && Entry(g, v, seeds, f0, sym0, sym20)
    requires if Reached(g, white, v, |g.ops|) then Written(g, white, |seeds|, v, |g.ops|, f, sym, sym2)
             else f == f0 && sym == sym0 && sym2 == sym20
    ensures Entry(g, v, seeds + [white], f, sym, sym2)
  {
    ReachedIsOrbit(g, k, white, v);
    hide Group.T, Group.Valid, Group.IdentityLast, Collected, LastInverse, GoodSym, ExactTransforms, Reached, Least,
         Pow2, Ones;
    if Reached(g, white, v, |g.ops|) {
      LastInverseIsGood(g, white, v, sym);
      CollectedIsExact(g, white, v, sym2);
    }
  }

  lemma SeedRecorded(g: Group, ws: seq<nat>, i: nat)
    requires |g.ops| > 0 && i < |ws| && IsSeed(g, ws[i])
    ensures SeedsAmong(g, ws[..i + 1]) == SeedsAmong(g, ws[..i]) + [ws[i]]
  {
    assert ws[..i + 1][..i] == ws[..i];
  }

  lemma SeedNotAmong(g: Group, k: nat, ws: seq<nat>, i: nat)
    requires g.Valid() && ws == Words(g.n, k) && i < |ws|
    ensures ws[i] !in SeedsAmong(g, ws[..i])
  {
    WordsAreAscending(g.n, k);
    SeedsAmongFacts(g, ws[..i]);
  }

  /** Reading one entry of the arrays. */
  lemma EntryAt(g: Group, k: nat, seeds: seq<nat>, f: array<int>, sym: array<nat>, sym2: array<nat>, w: nat)
    requires |g.ops| > 0 && WhiteArrays(g, k, seeds, f, sym, sym2) && IsWord(g, k, w)
    ensures w < f.Length && Entry(g, w, seeds, f[w], sym[w], sym2[w])
    ensures f[w] == -1 <==> Least(g, w) !in seeds
  {
    hide Least, GoodSym, ExactTransforms, Ones, Pow2;
  }

  lemma SeedsEnds(g: Group, k: nat)
    requires |g.ops| > 0
    ensures SeedsAmong(g, Words(g.n, k)[..0]) == []
    ensures SeedsAmong(g, Words(g.n, k)) == Seeds(g, k)
  {}

  /** First pass: number the orbits in the order their least words come up. */
  method FillOrbits(g: Group, k: nat, f: array<int>, sym: array<nat>, sym2: array<nat>) returns (c: nat)
    requires g.Valid() && g.IdentityLast() && k <= g.n <= POINTS
    requires WhiteArrays(g, k, [], f, sym, sym2)
    modifies f, sym, sym2
    ensures c == |Seeds(g, k)|
    ensures WhiteArrays(g, k, Seeds(g, k), f, sym, sym2)
  {
    hide *;
    c := 0;
    ghost var ws, i := Words(g.n, k), 0;
    WordsFirst(g.n, k);
    SeedsEnds(g, k);
    var w := Pow2(k) - 1;
    if |ws| == 0 { assert false; }
    while w < Pow2(g.n)
      invariant i <= |ws| && (i < |ws| ==> w == ws[i]) && (i == |ws| ==> w >= Pow2(g.n))
      invariant c == |SeedsAmong(g, ws[..i])|
      invariant WhiteArrays(g, k, SeedsAmong(g, ws[..i]), f, sym, sym2)
      decreases |ws| - i
    {
      UnenteredIsSeed(g, k, ws, i);
      ghost var seeds := SeedsAmong(g, ws[..i]);
      EntryAt(g, k, seeds, f, sym, sym2, w);
      if f[w] == -1 {
        SeedNotAmong(g, k, ws, i);
        EnterOrbit(g, k, seeds, w, c, f, sym, sym2);
        SeedRecorded(g, ws, i);
        c := c + 1;
      } else {
        OrbitSkipped(g, ws, i);
      }
      WordsNext(g.n, k, i);
      w := NextChoose(w);
      i := i + 1;
    }
    if i < |ws| { WordsSound(g.n, k, i); }
    assert ws[..|ws|] == ws;
  }

  // ---------------------------------------------------------------- the other passes

  /** numbers[w] is the place of w's seed in the list. */
  ghost predicate Numbers(g: Group, ws: seq<nat>, seeds: seq<nat>, numbers: seq<int>)
    requires |g.ops| > 0
  {
    forall j :: 0 <= j < |ws| ==>
      && ws[j] < |numbers| && 0 <= numbers[ws[j]] < |seeds|
      && seeds[numbers[ws[j]]] == Least(g, ws[j])
  }

  lemma NumbersOf(g: Group, k: nat, f: array<int>, sym: array<nat>, sym2: array<nat>)
    requires g.Valid() && WhiteArrays(g, k, Seeds(g, k), f, sym, sym2)
    ensures Numbers(g, Words(g.n, k), Seeds(g, k), f[..])
  {
    var ws := Words(g.n, k);
    forall j | 0 <= j < |ws|
      ensures ws[j] < |f[..]| && 0 <= f[..][ws[j]] < |Seeds(g, k)| && Seeds(g, k)[f[..][ws[j]]] == Least(g, ws[j])
    {
      WordsSound(g.n, k, j);
      LeastInSeeds(g, ws[j]);
      hide Words, Seeds, Group.Valid, Least, Ones, Pow2, WhiteArrays, Entry;
      WordSize(g, k, ws[j]);
      EntryAt(g, k, Seeds(g, k), f, sym, sym2, ws[j]);
      EntryNumber(g, ws[j], Seeds(g, k), f[ws[j]], sym[ws[j]], sym2[ws[j]]);
    }
  }

  lemma EntryNumber(g: Group, v: nat, seeds: seq<nat>, f: int, sym: nat, sym2: nat)
    requires |g.ops| > 0 && Entry(g, v, seeds, f, sym, sym2) && Least(g, v) in seeds
    ensures 0 <= f < |seeds| && seeds[f] == Least(g, v)
  {}

  /** After the words from place d up have been written, each number's slot holds a word of
      the right orbit, no larger than any of those written. */
  ghost predicate Recorded(g: Group, ws: seq<nat>, seeds: seq<nat>, numbers: seq<int>, d: nat, inv: seq<nat>)
    requires |g.ops| > 0
  {
    && |inv| == |seeds|
    && forall j :: d <= j < |ws| ==>
         && ws[j] < |numbers| && 0 <= numbers[ws[j]] < |seeds|
         && inv[numbers[ws[j]]] <= ws[j]
         && inv[numbers[ws[j]]] in ws && Least(g, inv[numbers[ws[j]]]) == Least(g, ws[j])
  }

  lemma RecordedNone(g: Group, ws: seq<nat>, seeds: seq<nat>, numbers: seq<int>, inv: seq<nat>)
    requires |g.ops| > 0 && |inv| == |seeds|
    ensures Recorded(g, ws, seeds, numbers, |ws|, inv)
  {}

  lemma RecordedStep(g: Group, ws: seq<nat>, seeds: seq<nat>, numbers: seq<int>, d: nat, inv: seq<nat>)
    requires |g.ops| > 0 && Ascending(ws) && Numbers(g, ws, seeds, numbers)
    requires 0 < d <= |ws| && Recorded(g, ws, seeds, numbers, d, inv)
    ensures ws[d - 1] < |numbers| && 0 <= numbers[ws[d - 1]] < |seeds|
    ensures Recorded(g, ws, seeds, numbers, d - 1, inv[numbers[ws[d - 1]] := ws[d - 1]])
  {
    hide Least;
  }

  lemma RecordedAll(g: Group, k: nat, numbers: seq<int>, inv: seq<nat>)
    requires g.Valid() && Numbers(g, Words(g.n, k), Seeds(g, k), numbers)
    requires Recorded(g, Words(g.n, k), Seeds(g, k), numbers, 0, inv)
    ensures inv == Seeds(g, k)
  {
    var ws, seeds := Words(g.n, k), Seeds(g, k);
    SeedsAreAscending(g, k);
    hide Words, Seeds, Group.Valid, Least, Ones, Pow2;
    forall p | 0 <= p < |seeds| ensures inv[p] == seeds[p] {
      assert seeds[p] in seeds;
      SeedMember(g, k, seeds[p]);
      WordMember(g.n, k, seeds[p]);
      var j :| 0 <= j < |ws| && ws[j] == seeds[p];
      assert numbers[ws[j]] == p;
      WordMember(g.n, k, inv[p]);
      var op := LeastIsMin(g, inv[p]);
      TIdentity(g, inv[p]);
    }
  }

  /** Second pass: walking the words downwards, the last write for each number is the
      least word with that number. */
  method FillInverse(g: Group, k: nat, f: array<int>, sym: array<nat>, sym2: array<nat>, c: nat)
          returns (fInv: array<nat>)
    requires g.Valid() && k <= g.n <= POINTS && c == |Seeds(g, k)|
    requires WhiteArrays(g, k, Seeds(g, k), f, sym, sym2)
    ensures fresh(fInv) && fInv[..] == Seeds(g, k)
  {
    hide *;
    NumbersOf(g, k, f, sym, sym2);
    WordsAreAscending(g.n, k);
    fInv := new nat[c];
    var ws := CombinationMasks(g.n, k);
    RecordedNone(g, ws, Seeds(g, k), f[..], fInv[..]);
    ghost var numbers := f[..];
    for d := |ws| downto 0
      invariant f[..] == numbers
      invariant Recorded(g, ws, Seeds(g, k), numbers, d, fInv[..])
    {
      RecordedStep(g, ws, Seeds(g, k), numbers, d + 1, fInv[..]);
      fInv[f[ws[d]]] := ws[d];
    }
    RecordedAll(g, k, numbers, fInv[..]);
  }

  /** The first c words are ranked: lookup and inv undo each other on them. */
  ghost predicate Ranked(ws: seq<nat>, lookup: seq<nat>, inv: seq<nat>, c: nat) {
    && c <= |ws| == |inv|
    && forall i: nat :: i < c ==> inv[i] == ws[i] && ws[i] < |lookup| && lookup[ws[i]] == i
  }

  lemma RankedStep(ws: seq<nat>, lookup: seq<nat>, inv: seq<nat>, c: nat)
    requires Ascending(ws) && c < |ws| && ws[c] < |lookup| && Ranked(ws, lookup, inv, c)
    ensures Ranked(ws, lookup[ws[c] := c], inv[c := ws[c]], c + 1)
  {}

  /** Third pass: rank the black words; the guard against too many of them never fires. */
  method FillRanks(n: nat, k: nat, gLookup: array<nat>, gInv: array<nat>)
    requires k <= n <= POINTS
    requires gLookup.Length == Pow2(n) && gInv.Length == Binomial(n, k) && gLookup != gInv
    modifies gLookup, gInv
    ensures gInv[..] == Words(n, k)
    ensures Ranked(Words(n, k), gLookup[..], gInv[..], |Words(n, k)|)
  {
    ghost var ws := Words(n, k);
    WordsCount(n, k);
    WordsFirst(n, k);
    WordsAreAscending(n, k);
    var c := 0;
    var b := Pow2(k) - 1;
    assert Ranked(ws, gLookup[..], gInv[..], 0);
    hide *;
    while b < Pow2(n)
      invariant c <= |ws| && (c < |ws| ==> b == ws[c]) && (c == |ws| ==> b >= Pow2(n))
      invariant Ranked(ws, gLookup[..], gInv[..], c)
      decreases |ws| - c
    {
      if c >= Binomial(n, k) { assert false; }
      WordsNext(n, k, c);
      RankedStep(ws, gLookup[..], gInv[..], c);
      gLookup[b] := c;
      gInv[c] := b;
      b := NextChoose(b);
      c := c + 1;
    }
    if c < |ws| { WordsSound(n, k, c); }
    RankedAll(ws, gLookup[..], gInv[..]);
  }

  lemma RankedAll(ws: seq<nat>, lookup: seq<nat>, inv: seq<nat>)
    requires Ranked(ws, lookup, inv, |ws|)
    ensures inv == ws
  {}

  /** The first two passes, over the arrays as memset leaves them. */
  method FillWhites(g: Group, k: nat, f: array<int>, sym: array<nat>, sym2: array<nat>)
    returns (c: nat, fInv: array<nat>)
    requires g.Valid() && g.IdentityLast() && k <= g.n <= POINTS
    requires f.Length == sym.Length == sym2.Length == Pow2(g.n)
    requires f as object != sym && f as object != sym2 && sym != sym2
    requires forall v: nat :: v < f.Length ==> f[v] == -1 && sym2[v] == 0
    modifies f, sym, sym2
    ensures c == |Seeds(g, k)| && fresh(fInv) && fInv[..] == Seeds(g, k)
    ensures WhiteArrays(g, k, Seeds(g, k), f, sym, sym2)
  {
    hide *;
    EmptyTables(g, k, f, sym, sym2);
    c := FillOrbits(g, k, f, sym, sym2);
    fInv := FillInverse(g, k, f, sym, sym2, c);
  }

  // ---------------------------------------------------------------- what the tables must say

  /** The last of the first k operations that takes white to v. */
  ghost function LastTo(g: Group, white: nat, v: nat, k: nat): (i: nat)
    requires k <= |g.ops| && Reached(g, white, v, k)
    ensures i < k && g.T(i, white) == v && forall j: nat :: i < j < k ==> g.T(j, white) != v
    decreases k
  {
    if g.T(k - 1, white) == v then k - 1 else LastTo(g, white, v, k - 1)
  }

  lemma LastInverseUnique(g: Group, white: nat, v: nat, k: nat, op: nat)
    requires k <= |g.ops| == |g.inv| && LastInverse(g, white, v, k, op)
    ensures Reached(g, white, v, k) && op == g.inv[LastTo(g, white, v, k)]
  {
    hide Group.T;
  }

  lemma SeedReaches(g: Group, v: nat)
    requires g.Valid() && v < Pow2(g.n)
    ensures Reached(g, Least(g, v), v, |g.ops|)
  {
    var op := LeastIsMin(g, v);
    TFacts(g, op, v);
    LeastInvariant(g, op, v);
    hide Group.Valid, Group.T, Reached, Pow2, Ones;
    ReachedIsOrbit(g, Ones(Least(g, v)), Least(g, v), v);
  }

  /** The operation every filled table records for v, whatever it was built for. */
  ghost function SymOf(g: Group, v: nat): (op: nat)
    requires g.Valid() && v < Pow2(g.n)
    ensures op < |g.ops|
  {
    SeedReaches(g, v);
    g.inv[LastTo(g, Least(g, v), v, |g.ops|)]
  }

  /** Where that operation takes a board. */
  ghost function ImageOf(g: Group, a: nat): nat
    requires g.Valid()
  {
    LowBound(a, g.n);
    g.T48(SymOf(g, White(g.n, a)), a)
  }

  /** The slot a board has before any redirect, as a matter of the counts alone. */
  ghost function IndexOf(g: Group, whites: nat, blacks: nat, a: nat): (i: nat)
    requires g.Valid() && whites <= g.n && IsBoard(g.n, whites, blacks, a)
    ensures i < HashCount(g, whites, blacks)
  {
    hide IsBoard, Group.T48, Group.Valid, HashCount, SymOf, Low, Shr, Pow2;
    LowBound(a, g.n);
    T48Board(g, SymOf(g, White(g.n, a)), whites, blacks, a);
    DirectIndexParts(g, whites, blacks, ImageOf(g, a));
    DirectIndex(g, whites, blacks, ImageOf(g, a))
  }

  // ---------------------------------------------------------------- the class

  class Hash {
    const g: Group
    const whites: nat
    const blacks: nat
    const evals: seq<RawEval>
    const fLookup: array<int>
    const fSymLookup: array<nat>
    const fSymLookup2: array<nat>
    var fInvLookup: array<nat>
    const gLookup: array<nat>
    const gInvLookup: array<nat>
    var fCount: nat
    var hashCount: nat

    ghost predicate Valid()
      reads this, fLookup, fSymLookup, fSymLookup2, fInvLookup, gLookup, gInvLookup
      ensures Valid() ==> g.Valid() && whites <= g.n <= POINTS
    {
      && g.Valid() && g.IdentityLast() && whites + blacks <= g.n <= POINTS
      && WhiteArrays(g, whites, Seeds(g, whites), fLookup, fSymLookup, fSymLookup2)
      && fInvLookup[..] == Seeds(g, whites)
      && gInvLookup[..] == Words(g.n - whites, blacks)
      && Ranked(Words(g.n - whites, blacks), gLookup[..], gInvLookup[..], |Words(g.n - whites, blacks)|)
      && fCount == |Seeds(g, whites)|
      && hashCount == HashCount(g, whites, blacks)
    }

    /** The stone counts fit the board and the identity is the last operation. */
    constructor (g: Group, whites: nat, blacks: nat, evals: seq<RawEval>)
      requires g.Valid() && g.IdentityLast()
      requires whites + blacks <= g.n <= POINTS
      ensures Valid()
      ensures this.g == g && this.whites == whites && this.blacks == blacks && this.evals == evals
    {
      hide *;
      this.g, this.whites, this.blacks, this.evals := g, whites, blacks, evals;
      this.gLookup := new nat[Pow2(g.n - whites)];
      this.fLookup := new int[Pow2(g.n)](_ => -1);
      this.fSymLookup := new nat[Pow2(g.n)];
      this.fSymLookup2 := new nat[Pow2(g.n)](_ => 0);
      this.fInvLookup := new nat[0];
      this.gInvLookup := new nat[Binomial(g.n - whites, blacks)];
      new;
      fCount, fInvLookup := FillWhites(g, whites, fLookup, fSymLookup, fSymLookup2);
      FillRanks(g.n - whites, blacks, gLookup, gInvLookup);
      hashCount := fCount * Binomial(g.n - whites, blacks);
      HashCountIs(g, whites, blacks);
      TablesAreValid(this);
    }
  
    /** Where the recorded operation takes a board. */
    ghost function Image(a: nat): nat
      requires Valid() && IsBoard(g.n, whites, blacks, a)
      reads this, fLookup, fSymLookup, fSymLookup2, fInvLookup, gLookup, gInvLookup
    {
      WhiteLookups(this, a);
      g.T48(fSymLookup[White(g.n, a)], a)
    }

    /** The index of a board, before any redirect. */
    ghost function Index(a: nat): nat
      requires Valid() && IsBoard(g.n, whites, blacks, a)
      reads this, fLookup, fSymLookup, fSymLookup2, fInvLookup, gLookup, gInvLookup
    {
      ImageIsSeedBoard(this, a);
      DirectIndex(g, whites, blacks, Image(a))
    }

    /** Hash::hash; its assertion about the redirect it follows is the last requires. */
    method HashOf(a: nat) returns (h: nat, e: RawEval)
      requires Valid() && IsBoard(g.n, whites, blacks, a) && |evals| == HashCount(g, whites, blacks)
      requires Index(a) < |evals| ==> SlotResolves(g, whites, blacks, evals, Index(a))
      ensures Index(a) < |evals|
      ensures evals[Index(a)].IsRedirect() ==> evals[Index(a)].Operation() < |g.ops|
      ensures h == TargetSlot(g, whites, blacks, evals, Index(a))
      ensures h < |evals| && e == evals[h] && !e.IsRedirect()
    {
      hide *;
      WhiteLookups(this, a);
      ImageIsSeedBoard(this, a);
      ImageUnfolds(this, a);
      var a1 := g.T48(fSymLookup[White(g.n, a)], a);
      TablesIndex(this, a1);
      IndexUnfolds(this, a);
      InverseOfDirect(g, whites, blacks, a1);
      var c := CollapseLoop(g.n, a1);
      var h1 := Number(fLookup[White(g.n, a1)], gLookup[c], Binomial(g.n - whites, blacks));
      SlotUnfolds(g, whites, blacks, evals, h1);
      e := evals[h1];
      if !e.IsRedirect() {
        h := h1;
      } else {
        T48Board(g, e.Operation(), whites, blacks, a1);
        var a2 := g.T48(e.Operation(), a1);
        TablesIndex(this, a2);
        c := CollapseLoop(g.n, a2);
        h := Number(fLookup[White(g.n, a2)], gLookup[c], Binomial(g.n - whites, blacks));
        e := evals[h];
      }
    }

    /** Hash::inverse_hash. */
    method InverseHash(h: nat) returns (a: nat)
      requires Valid() && h < hashCount
      ensures h < HashCount(g, whites, blacks) && a == InverseBoard(g, whites, blacks, h)
    {
      hide Group.Valid, WhiteArrays, Ranked, HashCount, Words, Seeds, Pow2, Binomial, InverseBoard, Expand, Low, Shr,
           Ones, Pack;
      ghost var w, c := InverseBoardParts(g, whites, blacks, h);
      SeedMember(g, whites, w);
      PackParts(g.n, w, c);
      var m := Binomial(g.n - whites, blacks);
      var f, k := h / m, h % m;
      assert fInvLookup[..][f] == w && gInvLookup[..][k] == c;
      a := UncollapseLoop(g.n, Pack(g.n, fInvLookup[f], gInvLookup[k]));
    }
  }

  lemma SlotUnfolds(g: Group, whites: nat, blacks: nat, evals: seq<RawEval>, h: nat)
    requires g.Valid() && whites <= g.n && h < |evals| == HashCount(g, whites, blacks)
    requires SlotResolves(g, whites, blacks, evals, h)
    ensures !evals[h].IsRedirect() ==> TargetSlot(g, whites, blacks, evals, h) == h
    ensures evals[h].IsRedirect() ==>
              && evals[h].Operation() < |g.ops|
              && var b := g.T48(evals[h].Operation(), InverseBoard(g, whites, blacks, h));
              && IsBoard(g.n, whites, blacks, b)
              && TargetSlot(g, whites, blacks, evals, h) == DirectIndex(g, whites, blacks, b) < |evals|
              && !evals[DirectIndex(g, whites, blacks, b)].IsRedirect()
  {
    hide Group.Valid, HashCount, InverseBoard, DirectIndex, Group.T48, IsBoard;
    if evals[h].IsRedirect() {
      TargetInRange(g, whites, blacks, evals, h);
      DirectOfInverse(g, whites, blacks, h);
      T48Board(g, evals[h].Operation(), whites, blacks, InverseBoard(g, whites, blacks, h));
    }
  }

  /** What the white arrays say about the white word of a board. */
  lemma WhiteLookups(h: Hash, a: nat)
    requires h.Valid() && IsBoard(h.g.n, h.whites, h.blacks, a)
    ensures var w := White(h.g.n, a);
            && w < h.fLookup.Length && w < h.fSymLookup.Length && w < h.fSymLookup2.Length
            && Least(h.g, w) in Seeds(h.g, h.whites)
            && Entry(h.g, w, Seeds(h.g, h.whites), h.fLookup[w], h.fSymLookup[w], h.fSymLookup2[w])
            && GoodSym(h.g, w, h.fSymLookup[w])
  {
    var w := White(h.g.n, a);
    LowBound(a, h.g.n);
    LeastInSeeds(h.g, w);
    hide Group.Valid, Seeds, Words, Least, Low, Shr, Ranked, GoodSym, ExactTransforms, Pow2, Ones, HashCount;
    EntryAt(h.g, h.whites, Seeds(h.g, h.whites), h.fLookup, h.fSymLookup, h.fSymLookup2, w);
  }

  lemma ImageUnfolds(h: Hash, a: nat)
    requires h.Valid() && IsBoard(h.g.n, h.whites, h.blacks, a)
    ensures White(h.g.n, a) < h.fSymLookup.Length && h.fSymLookup[White(h.g.n, a)] < |h.g.ops|
    ensures h.Image(a) == h.g.T48(h.fSymLookup[White(h.g.n, a)], a)
  {
    WhiteLookups(h, a);
  }

  lemma ImageIsSeedBoard(h: Hash, a: nat)
    requires h.Valid() && IsBoard(h.g.n, h.whites, h.blacks, a)
    ensures IsBoard(h.g.n, h.whites, h.blacks, h.Image(a))
    ensures White(h.g.n, h.Image(a)) == Least(h.g, White(h.g.n, a)) && IsSeed(h.g, White(h.g.n, h.Image(a)))
  {
    WhiteLookups(h, a);
    ImageUnfolds(h, a);
    LowBound(a, h.g.n);
    hide Group.Valid, Seeds, Words, Least, Low, Shr, Ranked, ExactTransforms, Pow2, Ones, HashCount, Hash.Image,
         IsBoard, Hash.Valid, Group.T, Group.T48;
    var op := h.fSymLookup[White(h.g.n, a)];
    T48Board(h.g, op, h.whites, h.blacks, a);
    T48Parts(h.g, op, a);
    LeastInvariant(h.g, op, White(h.g.n, a));
  }

  lemma IndexUnfolds(h: Hash, a: nat)
    requires h.Valid() && IsBoard(h.g.n, h.whites, h.blacks, a)
    ensures IsBoard(h.g.n, h.whites, h.blacks, h.Image(a))
    ensures h.Index(a) == DirectIndex(h.g, h.whites, h.blacks, h.Image(a))
  {
    ImageIsSeedBoard(h, a);
    hide Hash.Image, DirectIndex, IsBoard, Hash.Valid;
  }

  /** The filled tables leave no choice: any two for one group and counts index every board alike. */
  lemma IndexIsFixed(h: Hash, a: nat)
    requires h.Valid() && IsBoard(h.g.n, h.whites, h.blacks, a)
    ensures h.Image(a) == ImageOf(h.g, a)
    ensures h.Index(a) == IndexOf(h.g, h.whites, h.blacks, a)
  {
    hide Hash.Valid, Hash.Image, Hash.Index, Group.Valid, Group.T48, IsBoard, Seeds, Least, LastInverse, GoodSym;
    hide ExactTransforms, LastTo, Low, Shr, Pow2, DirectIndex;
    var w := White(h.g.n, a);
    LowBound(a, h.g.n);
    WhiteLookups(h, a);
    LastInverseUnique(h.g, Least(h.g, w), w, |h.g.ops|, h.fSymLookup[w]);
    ImageUnfolds(h, a);
    IndexUnfolds(h, a);
  }

  lemma ImageOfIsSeedBoard(g: Group, whites: nat, blacks: nat, a: nat)
    requires g.Valid() && whites <= g.n && IsBoard(g.n, whites, blacks, a)
    ensures IsBoard(g.n, whites, blacks, ImageOf(g, a)) && IsSeed(g, White(g.n, ImageOf(g, a)))
  {
    var w := White(g.n, a);
    LowBound(a, g.n);
    SeedReaches(g, w);
    var i := LastTo(g, Least(g, w), w, |g.ops|);
    var op := LeastIsMin(g, w);
    TFacts(g, op, w);
    TInverse(g, i, Least(g, w));
    T48Board(g, SymOf(g, w), whites, blacks, a);
    T48Parts(g, SymOf(g, w), a);
    LeastInvariant(g, op, w);
  }

  /** What a redirect written for operation op means: a board whose own slot holds it is read at the
      slot of what op makes of the board's image. */
  lemma WrittenRedirectIsFollowed(g: Group, whites: nat, blacks: nat, evals: seq<RawEval>, a: nat, op: nat)
    requires g.Valid() && whites <= g.n && IsBoard(g.n, whites, blacks, a) && |evals| == HashCount(g, whites, blacks)
    requires evals[IndexOf(g, whites, blacks, a)] == RawEval(0, -(op as int) - 1) && op < |g.ops|
    ensures evals[IndexOf(g, whites, blacks, a)].IsRedirect()
    ensures evals[IndexOf(g, whites, blacks, a)].Operation() == op
    ensures IsBoard(g.n, whites, blacks, g.T48(op, ImageOf(g, a)))
    ensures TargetSlot(g, whites, blacks, evals, IndexOf(g, whites, blacks, a))
         == DirectIndex(g, whites, blacks, g.T48(op, ImageOf(g, a)))
  {
    hide Group.Valid, HashCount, InverseBoard, DirectIndex, Group.T48, IsBoard, SymOf, Low, Shr, TargetSlot, IsSeed;
    ImageOfIsSeedBoard(g, whites, blacks, a);
    InverseOfDirect(g, whites, blacks, ImageOf(g, a));
    WrittenTarget(g, whites, blacks, evals, IndexOf(g, whites, blacks, a), op);
  }

  /** Reading the number of a board off the tables. */
  lemma TablesIndex(h: Hash, a: nat)
    requires h.Valid() && IsBoard(h.g.n, h.whites, h.blacks, a)
    ensures var w, c := White(h.g.n, a), Compact(White(h.g.n, a), Black(h.g.n, a), h.g.n);
            && w < h.fLookup.Length && h.fLookup[w] >= 0 && c < h.gLookup.Length
            && DirectIndex(h.g, h.whites, h.blacks, a)
               == Number(h.fLookup[w], h.gLookup[c], Binomial(h.g.n - h.whites, h.blacks))
            && DirectIndex(h.g, h.whites, h.blacks, a) < HashCount(h.g, h.whites, h.blacks)
  {
    hide Hash.Valid, Words, Seeds, Group.Valid, Position, Number, Compact, Low, Shr, Pow2, Ones, Binomial, And, Least,
         IsBoard, HashCount, GoodSym, ExactTransforms;
    var w, c := White(h.g.n, a), Compact(White(h.g.n, a), Black(h.g.n, a), h.g.n);
    WhiteLookups(h, a);
    BoardIsListed(h.g, h.whites, h.blacks, a);
    DirectIndexParts(h.g, h.whites, h.blacks, a);
    WhiteNumber(h, w);
    BlackNumber(h, c);
  }

  lemma WhiteNumber(h: Hash, w: nat)
    requires h.Valid() && w < h.fLookup.Length && w < h.fSymLookup.Length && w < h.fSymLookup2.Length
    requires Least(h.g, w) in Seeds(h.g, h.whites)
    requires Entry(h.g, w, Seeds(h.g, h.whites), h.fLookup[w], h.fSymLookup[w], h.fSymLookup2[w])
    ensures h.fLookup[w] >= 0 && Position(Seeds(h.g, h.whites), Least(h.g, w)) == h.fLookup[w]
  {
    SeedsAreAscending(h.g, h.whites);
    hide Words, Seeds, Group.Valid, WhiteArrays, Ranked, Position, Ascending, Least, HashCount, GoodSym,
         ExactTransforms;
    PositionUnique(Seeds(h.g, h.whites), h.fLookup[w]);
  }

  lemma BlackRanks(h: Hash)
    requires h.Valid()
    ensures Ranked(Words(h.g.n - h.whites, h.blacks), h.gLookup[..], h.gInvLookup[..],
                   |Words(h.g.n - h.whites, h.blacks)|)
  {
    hide Words, Seeds, Group.Valid, WhiteArrays, Ranked, HashCount;
  }

  lemma RankedWord(ws: seq<nat>, lookup: seq<nat>, inv: seq<nat>, c: nat)
    requires Ascending(ws) && Ranked(ws, lookup, inv, |ws|) && c in ws
    ensures c < |lookup| && Position(ws, c) == lookup[c]
  {
    hide Position, Ascending;
    var i :| 0 <= i < |ws| && ws[i] == c;
    assert lookup[ws[i]] == i;
    PositionUnique(ws, i);
  }

  lemma BlackNumber(h: Hash, c: nat)
    requires h.Valid() && c in Words(h.g.n - h.whites, h.blacks)
    ensures c < h.gLookup.Length && Position(Words(h.g.n - h.whites, h.blacks), c) == h.gLookup[c]
  {
    hide Words, Hash.Valid, Ranked, Position, Ascending;
    WordsAreAscending(h.g.n - h.whites, h.blacks);
    BlackRanks(h);
    RankedWord(Words(h.g.n - h.whites, h.blacks), h.gLookup[..], h.gInvLookup[..], c);
  }

  lemma HashCountIs(g: Group, whites: nat, blacks: nat)
    requires |g.ops| > 0 && whites <= g.n
    ensures HashCount(g, whites, blacks) == |Seeds(g, whites)| * Binomial(g.n - whites, blacks)
  {}

  lemma EmptyTables(g: Group, k: nat, f: array<int>, sym: array<nat>, sym2: array<nat>)
    requires |g.ops| > 0 && f.Length == sym.Length == sym2.Length == Pow2(g.n)
    requires f as object != sym && f as object != sym2 && sym != sym2
    requires forall v: nat :: v < f.Length ==> f[v] == -1 && sym2[v] == 0
    ensures WhiteArrays(g, k, [], f, sym, sym2)
  {
    hide Pow2, Ones, Least;
  }

  lemma TablesAreValid(h: Hash)
    requires h.g.Valid() && h.g.IdentityLast() && h.whites + h.blacks <= h.g.n <= POINTS
    requires WhiteArrays(h.g, h.whites, Seeds(h.g, h.whites), h.fLookup, h.fSymLookup, h.fSymLookup2)
    requires h.fInvLookup[..] == Seeds(h.g, h.whites)
    requires h.gInvLookup[..] == Words(h.g.n - h.whites, h.blacks)
    requires Ranked(Words(h.g.n - h.whites, h.blacks), h.gLookup[..], h.gInvLookup[..],
             |Words(h.g.n - h.whites, h.blacks)|)
    requires h.fCount == |Seeds(h.g, h.whites)| && h.hashCount == HashCount(h.g, h.whites, h.blacks)
    ensures h.Valid()
  {
    hide WhiteArrays, Seeds, Words, Ranked, HashCount, Group.Valid, Group.IdentityLast;
  }
}
