/** Entering a whole orbit in a table by applying every operation to its seed: which words
    are reached, and which operations are recorded for each. Both hashers do this. */
module OrbitEntry {
  import opened Bits
  import opened Symmetry
  import opened Orbits

  /** The mask names every operation that maps w to its seed, and nothing else. */
  ghost predicate ExactTransforms(g: Group, w: nat, mask: nat)
    requires |g.ops| > 0
  {
    forall j: nat :: Bit(mask, j) <==> j < |g.ops| && g.T(j, w) == Least(g, w)
  }

  /** One of the first k operations takes white to v. */
  ghost predicate Reached(g: Group, white: nat, v: nat, k: nat)
    requires k <= |g.ops|
  {
    exists i: nat :: i < k && g.T(i, white) == v
  }

  ghost predicate Collected(g: Group, white: nat, v: nat, k: nat, mask: nat)
    requires k <= |g.ops| == |g.inv|
  {
    forall j: nat :: Bit(mask, j) <==> exists i: nat :: i < k && g.inv[i] == j && g.T(i, white) == v
  }

  /** Once every operation has been applied, the collected mask is exact. */
  lemma CollectedIsExact(g: Group, white: nat, v: nat, mask: nat)
    requires g.Valid() && white < Pow2(g.n) && v < Pow2(g.n) && Least(g, v) == white
    requires Collected(g, white, v, |g.ops|, mask)
    ensures ExactTransforms(g, v, mask)
  {
    forall j: nat ensures Bit(mask, j) <==> j < |g.ops| && g.T(j, v) == white {
      if Bit(mask, j) {
        var i: nat :| i < |g.ops| && g.inv[i] == j && g.T(i, white) == v;
        TInverse(g, i, white);
      }
      if j < |g.ops| && g.T(j, v) == white {
        TInverse(g, j, v);
        assert g.inv[g.inv[j]] == j;
      }
    }
  }

  lemma CollectedStep(g: Group, white: nat, v: nat, k: nat, mask: nat)
    requires g.Valid() && k < |g.ops| && g.T(k, white) == v
    requires Collected(g, white, v, k, mask)
    ensures Collected(g, white, v, k + 1, Or(mask, Pow2(g.inv[k])))
  {
    forall j: nat
      ensures Bit(Or(mask, Pow2(g.inv[k])), j) <==> exists i: nat :: i < k + 1 && g.inv[i] == j && g.T(i, white) == v
    {
      OrBit(mask, Pow2(g.inv[k]), j);
      Pow2Bit(g.inv[k], j);
      if j == g.inv[k] { assert k < k + 1 && g.inv[k] == j && g.T(k, white) == v; }
    }
  }

  lemma CollectedElsewhere(g: Group, white: nat, v: nat, k: nat, mask: nat)
    requires g.Valid() && k < |g.ops| && g.T(k, white) != v
    requires Collected(g, white, v, k, mask)
    ensures Collected(g, white, v, k + 1, mask)
  {}

  lemma NothingCollected(g: Group, white: nat, v: nat, k: nat)
    requires g.Valid() && k <= |g.ops| && !Reached(g, white, v, k)
    ensures Collected(g, white, v, k, 0)
  {
    forall j: nat ensures !Bit(0, j) { ZeroBit(j); }
  }

  lemma OrbitSkipped(g: Group, ws: seq<nat>, c: nat)
    requires |g.ops| > 0 && c < |ws| && !IsSeed(g, ws[c])
    ensures SeedsAmong(g, ws[..c + 1]) == SeedsAmong(g, ws[..c])
  {
    assert ws[..c + 1][..c] == ws[..c];
  }

  /** The words an orbit reaches are exactly those with its seed. */
  lemma ReachedIsOrbit(g: Group, k: nat, white: nat, v: nat)
    requires g.Valid() && white < Pow2(g.n) && Ones(white) == k && IsSeed(g, white)
    ensures Reached(g, white, v, |g.ops|) <==> v < Pow2(g.n) && Ones(v) == k && Least(g, v) == white
  {
    if Reached(g, white, v, |g.ops|) {
      var i: nat :| i < |g.ops| && g.T(i, white) == v;
      TFacts(g, i, white);
      LeastInvariant(g, i, white);
    }
    if v < Pow2(g.n) && Least(g, v) == white {
      SameOrbitIffSameLeast(g, white, v);
    }
  }
}
