/** The entries of one sector, slot by slot, and when its redirects resolve. */
module SectorData {
  import opened Collapse
  import opened Symmetry
  import opened Orbits
  import opened Evals

  /** Where the entry in slot h is read: the slot itself, or the slot of the board its
      redirect names. */
  function TargetSlot(g: Group, whites: nat, blacks: nat, evals: seq<RawEval>, h: nat): nat
    requires g.Valid() && whites <= g.n && h < |evals| == HashCount(g, whites, blacks)
    requires evals[h].IsRedirect() ==> evals[h].Operation() < |g.ops|
  {
    if evals[h].IsRedirect() then
      DirectOfInverse(g, whites, blacks, h);
      T48Board(g, evals[h].Operation(), whites, blacks, InverseBoard(g, whites, blacks, h));
      DirectIndex(g, whites, blacks, g.T48(evals[h].Operation(), InverseBoard(g, whites, blacks, h)))
    else h
  }

  lemma TargetInRange(g: Group, whites: nat, blacks: nat, evals: seq<RawEval>, h: nat)
    requires g.Valid() && whites <= g.n && h < |evals| == HashCount(g, whites, blacks)
    requires evals[h].IsRedirect() ==> evals[h].Operation() < |g.ops|
    ensures TargetSlot(g, whites, blacks, evals, h) < |evals|
  {
    if evals[h].IsRedirect() {
      DirectOfInverse(g, whites, blacks, h);
      var b := g.T48(evals[h].Operation(), InverseBoard(g, whites, blacks, h));
      T48Board(g, evals[h].Operation(), whites, blacks, InverseBoard(g, whites, blacks, h));
      DirectIndexParts(g, whites, blacks, b);
    }
  }

  /** Slot h holds a value or count, or redirects by a known operation to a slot that does. */
  ghost predicate SlotResolves(g: Group, whites: nat, blacks: nat, evals: seq<RawEval>, h: nat)
    requires g.Valid() && whites <= g.n && h < |evals| == HashCount(g, whites, blacks)
  {
    evals[h].IsRedirect() ==>
      && evals[h].Operation() < |g.ops|
      && (TargetInRange(g, whites, blacks, evals, h);
          !evals[TargetSlot(g, whites, blacks, evals, h)].IsRedirect())
  }

  ghost predicate AllResolve(g: Group, whites: nat, blacks: nat, evals: seq<RawEval>)
    requires g.Valid() && whites <= g.n && |evals| == HashCount(g, whites, blacks)
  {
    forall h: nat :: h < |evals| ==> SlotResolves(g, whites, blacks, evals, h)
  }

  /** The entry a probe of slot h reads. */
  function Resolved(g: Group, whites: nat, blacks: nat, evals: seq<RawEval>, h: nat): RawEval
    requires g.Valid() && whites <= g.n && h < |evals| == HashCount(g, whites, blacks)
    requires evals[h].IsRedirect() ==> evals[h].Operation() < |g.ops|
  {
    TargetInRange(g, whites, blacks, evals, h);
    evals[TargetSlot(g, whites, blacks, evals, h)]
  }

  /** An entry written for operation op is read at the slot of the board that operation leads to. */
  lemma WrittenTarget(g: Group, whites: nat, blacks: nat, evals: seq<RawEval>, h: nat, op: nat)
    requires g.Valid() && whites <= g.n && h < |evals| == HashCount(g, whites, blacks)
    requires op < |g.ops| && evals[h] == RawEval(0, -(op as int) - 1)
    ensures evals[h].IsRedirect() && evals[h].Operation() == op
    ensures IsBoard(g.n, whites, blacks, g.T48(op, InverseBoard(g, whites, blacks, h)))
    ensures TargetSlot(g, whites, blacks, evals, h)
         == DirectIndex(g, whites, blacks, g.T48(op, InverseBoard(g, whites, blacks, h)))
    ensures TargetSlot(g, whites, blacks, evals, h) < |evals|
  {
    SymIsRead(op);
    hide Group.Valid, HashCount, InverseBoard, DirectIndex, Group.T48, IsBoard;
    TargetInRange(g, whites, blacks, evals, h);
    DirectOfInverse(g, whites, blacks, h);
    T48Board(g, op, whites, blacks, InverseBoard(g, whites, blacks, h));
  }
}
