/** Sector identifiers: stone counts seen from the side to move. */
module Ids {

  /** W and B stones on the board, WF and BF still in hand. */
  datatype Id = Id(W: int, B: int, WF: int, BF: int) {
    function Negated(): Id { Id(B, W, BF, WF) }

    /** eks: the sector is its own negation. */
    predicate Eks() { this == Negated() }

    predicate Transient(lasker: bool) {
      if lasker then !(W != 0 && B != 0) else !(WF == 0 && BF == 0)
    }

    predicate IsTwine(lasker: bool) { !Eks() && !Transient(lasker) }

    /** operator<: lexicographic. */
    predicate Less(o: Id) {
      || W < o.W
      || (W == o.W && B < o.B)
      || (W == o.W && B == o.B && WF < o.WF)
      || (W == o.W && B == o.B && WF == o.WF && BF < o.BF)
    }
  }

  /** A sector's counts as one number, the mover's stones on the board most significant. */
  function Number(u: Id): int { ((u.W * 16 + u.B) * 16 + u.WF) * 16 + u.BF }

  predicate Counts(u: Id) {
    0 <= u.W < 16 && 0 <= u.B < 16 && 0 <= u.WF < 16 && 0 <= u.BF < 16
  }

  lemma LessIsNumber(u: Id, v: Id)
    requires Counts(u) && Counts(v)
    ensures u.Less(v) <==> Number(u) < Number(v)
  {}

  lemma LeastExists(s: set<Id>) returns (x: Id)
    requires s != {}
    ensures x in s && forall y :: y in s ==> y == x || x.Less(y)
    decreases |s|
  {
    x :| x in s;
    if s != {x} {
      var rest := s - {x};
      var z := LeastExists(rest);
      if z.Less(x) {
        x := z;
      }
      forall y | y in s ensures y == x || x.Less(y) {
        assert y == x || y in rest || y in s - rest;
      }
    }
  }

  ghost predicate Ascending(l: seq<Id>) {
    forall i, j :: 0 <= i < j < |l| ==> l[i].Less(l[j])
  }

  /** The contents of a std::set in iteration order. */
  method Listed(s: set<Id>) returns (l: seq<Id>)
    ensures Ascending(l) && forall x :: x in l <==> x in s
  {
    l := [];
    var rest := s;
    while rest != {}
      invariant rest <= s && forall x :: x in s <==> x in rest || x in l
      invariant forall x, i :: x in rest && 0 <= i < |l| ==> l[i].Less(x)
      invariant Ascending(l)
      decreases |rest|
    {
      ghost var least := LeastExists(rest);
      var x :| x in rest && forall y :: y in rest ==> y == x || x.Less(y);
      l := l + [x];
      rest := rest - {x};
    }
  }
}
