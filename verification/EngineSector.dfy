/** The sector objects of the C++ engine: entries on disk, and lookup tables that come and go. */
module EngineSector {
  import opened Subsets
  import opened Collapse
  import opened Symmetry
  import opened Orbits
  import opened Evals
  import opened SectorData
  import opened PerfectHash
  import opened Ids

  class Sector {
    const g: Group
    const id: Id
    const evals: seq<RawEval>
    var hash: Hash?

    /** The counts fit the board, and the file has one entry a slot. */
    ghost predicate Sound() {
      && g.Valid() && g.IdentityLast() && 0 <= id.W && 0 <= id.B && id.W + id.B <= g.n <= POINTS
      && |evals| == HashCount(g, id.W, id.B)
    }

    /** A table that is there was built for this sector. */
    ghost predicate Valid()
      reads this, hash
      reads if hash == null then {}
            else {hash.fLookup as object, hash.fSymLookup, hash.fSymLookup2, hash.fInvLookup, hash.gLookup,
                  hash.gInvLookup}
    {
      && Sound()
      && (hash != null ==> hash.Valid() && hash.g == g && hash.whites == id.W && hash.blacks == id.B
                           && hash.evals == evals)
    }

    constructor (g: Group, id: Id, evals: seq<RawEval>)
      requires g.Valid() && g.IdentityLast() && 0 <= id.W && 0 <= id.B && id.W + id.B <= g.n <= POINTS
      requires |evals| == HashCount(g, id.W, id.B)
      ensures Valid() && hash == null
      ensures this.g == g && this.id == id && this.evals == evals
    {
      this.g, this.id, this.evals, hash := g, id, evals, null;
    }

    /** a is a board of the sector, and the redirect in its slot, if there is one, resolves. */
    ghost predicate Answerable(a: nat)
      requires Sound()
    {
      && IsBoard(g.n, id.W, id.B, a)
      && SlotResolves(g, id.W, id.B, evals, IndexOf(g, id.W, id.B, a))
    }

    /** The slot and entry a board has, as a matter of the sector alone. */
    ghost function Answer(a: nat): (nat, RawEval)
      requires Sound() && Answerable(a)
    {
      var i := IndexOf(g, id.W, id.B, a);
      (TargetSlot(g, id.W, id.B, evals, i), Resolved(g, id.W, id.B, evals, i))
    }

    method AllocateHash()
      requires Valid() && hash == null
      modifies this
      ensures Valid() && hash != null && fresh(hash)
    {
      hide *;
      ValidParts(this);
      SoundParts(this);
      hash := new Hash(g, id.W, id.B, evals);
      TableFits(this);
    }

    method ReleaseHash()
      requires Valid()
      modifies this
      ensures Valid() && hash == null
    {
      hash := null;
    }

    /** Ask the table that is there. */
    method Ask(a: nat) returns (h: nat, e: RawEval)
      requires Valid() && hash != null && Answerable(a)
      ensures (h, e) == Answer(a)
    {
      hide *;
      ValidParts(this);
      AnswerableParts(this, a);
      IndexIsFixed(hash, a);
      h, e := hash.HashOf(a);
      AnswerIs(this, a);
    }

    /** The answer of a table built for the purpose, as where tables are never released. */
    method AskFresh(a: nat) returns (h: nat, e: RawEval)
      requires Valid() && Answerable(a)
      ensures (h, e) == Answer(a)
    {
      hide *;
      ValidParts(this);
      SoundParts(this);
      AnswerableParts(this, a);
      var table := new Hash(g, id.W, id.B, evals);
      IndexIsFixed(table, a);
      h, e := table.HashOf(a);
      AnswerIs(this, a);
    }
  }

  lemma SoundParts(s: Sector)
    requires s.Sound()
    ensures s.g.Valid() && s.g.IdentityLast() && 0 <= s.id.W && 0 <= s.id.B && s.id.W + s.id.B <= s.g.n <= POINTS
    ensures |s.evals| == HashCount(s.g, s.id.W, s.id.B)
  {}

  lemma ValidParts(s: Sector)
    requires s.Valid()
    ensures s.Sound()
    ensures s.hash != null ==> s.hash.Valid() && s.hash.g == s.g && s.hash.whites == s.id.W
                               && s.hash.blacks == s.id.B && s.hash.evals == s.evals
  {}

  lemma TableFits(s: Sector)
    requires s.Sound() && s.hash != null && s.hash.Valid() && s.hash.g == s.g && s.hash.whites == s.id.W
    requires s.hash.blacks == s.id.B && s.hash.evals == s.evals
    ensures s.Valid()
  {}

  lemma AnswerableParts(s: Sector, a: nat)
    requires s.Sound() && s.Answerable(a)
    ensures s.g.Valid() && 0 <= s.id.W <= s.g.n && 0 <= s.id.B && IsBoard(s.g.n, s.id.W, s.id.B, a)
    ensures IndexOf(s.g, s.id.W, s.id.B, a) < |s.evals| == HashCount(s.g, s.id.W, s.id.B)
    ensures SlotResolves(s.g, s.id.W, s.id.B, s.evals, IndexOf(s.g, s.id.W, s.id.B, a))
  {}

  lemma AnswerIs(s: Sector, a: nat)
    requires s.Sound() && s.Answerable(a)
    ensures var i := IndexOf(s.g, s.id.W, s.id.B, a);
            && i < |s.evals| == HashCount(s.g, s.id.W, s.id.B)
            && (s.evals[i].IsRedirect() ==> s.evals[i].Operation() < |s.g.ops|)
            && TargetSlot(s.g, s.id.W, s.id.B, s.evals, i) < |s.evals|
            && s.Answer(a) == (TargetSlot(s.g, s.id.W, s.id.B, s.evals, i),
                               s.evals[TargetSlot(s.g, s.id.W, s.id.B, s.evals, i)])
  {
    hide IndexOf, TargetSlot, Group.Valid, HashCount, IsBoard;
    TargetInRange(s.g, s.id.W, s.id.B, s.evals, IndexOf(s.g, s.id.W, s.id.B, a));
  }
}
