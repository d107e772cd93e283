/** Raw sector entries and the sector files they are read from. */
module Evals {

  /** key1 is the value relative to the sector, key2 the distance or count; a zero key1 with
      a negative key2 redirects to a symmetric board. */
  datatype RawEval = RawEval(key1: int, key2: int) {

    predicate IsRedirect() {
      key1 == 0 && key2 < 0
    }

    /** The symmetry operation of a redirect. */
    function Operation(): nat
      requires IsRedirect()
    {
      -(key2 + 1)
    }
  }

  // ---------------------------------------------------------------- what a writer stores

  /** make_sym: the entry that redirects by operation op. */
  function MakeSym(op: nat): RawEval {
    RawEval(0, -(op as int) - 1)
  }

  /** Reading undoes writing: the entry written for an operation is a redirect by that operation. */
  lemma SymIsRead(op: nat)
    ensures RawEval(0, -(op as int) - 1).IsRedirect() && RawEval(0, -(op as int) - 1).Operation() == op
    ensures MakeSym(op) == RawEval(0, -(op as int) - 1)
  {}

  /** Every redirect is the entry written for its operation, and no value or count reads as one. */
  lemma RedirectIsWritten(e: RawEval)
    ensures e.IsRedirect() <==> exists op: nat :: e == MakeSym(op)
    ensures e.IsRedirect() ==> e == MakeSym(e.Operation())
    ensures e.key1 != 0 || e.key2 >= 0 ==> !e.IsRedirect()
  {
    if e.IsRedirect() { assert e == MakeSym(e.Operation()); }
  }
}
