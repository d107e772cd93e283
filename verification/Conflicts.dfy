/** Conflicts between puzzles and the order in which they are listed. */
module Conflicts {
  datatype Conflict = Conflict(leftId: string, rightId: string, distance: int)

  /** a < b for strings. */
  predicate StringBefore(a: string, b: string) {
    if b == "" then false
    else if a == "" then true
    else if a[0] != b[0] then a[0] < b[0]
    else StringBefore(a[1..], b[1..])
  }

  lemma {:induction false} StringOrder(a: string, b: string, c: string)
    ensures !StringBefore(a, a)
    ensures a == b || StringBefore(a, b) || StringBefore(b, a)
    ensures StringBefore(a, b) && StringBefore(b, c) ==> StringBefore(a, c)
    decreases |a| + |b| + |c|
  {
    if a != "" {
      StringOrder(a[1..], if b == "" then "" else b[1..], if c == "" then "" else c[1..]);
      if b != "" && a[0] == b[0] && a[1..] == b[1..] { assert a == [a[0]] + a[1..] && b == [b[0]] + b[1..]; }
    }
  }

  /** The sort key: distance, then the two ids. */
  predicate ConflictBefore(c: Conflict, d: Conflict) {
    if c.distance != d.distance then c.distance < d.distance
    else if c.leftId != d.leftId then StringBefore(c.leftId, d.leftId)
    else StringBefore(c.rightId, d.rightId)
  }

  lemma ConflictOrder(c: Conflict, d: Conflict, e: Conflict)
    ensures !ConflictBefore(c, c)
    ensures c == d || ConflictBefore(c, d) || ConflictBefore(d, c)
    ensures ConflictBefore(c, d) && ConflictBefore(d, e) ==> ConflictBefore(c, e)
  {
    hide StringBefore;
    StringOrder(c.leftId, d.leftId, e.leftId);
    StringOrder(d.leftId, c.leftId, c.leftId);
    StringOrder(c.rightId, d.rightId, e.rightId);
  }

  ghost predicate Sorted(l: seq<Conflict>) {
    forall i, j :: 0 <= i < j < |l| ==> ConflictBefore(l[i], l[j])
  }

  ghost predicate Different(l: seq<Conflict>) {
    forall i, j :: 0 <= i < j < |l| ==> l[i] != l[j]
  }

  lemma DifferentAppend(l: seq<Conflict>, c: Conflict)
    requires Different(l) && c !in l
    ensures Different(l + [c])
  {}

  // ---------------------------------------------------------------- what the order means

  /** a stops short of b, or has the lesser character where they first differ. */
  ghost predicate FirstLess(a: string, b: string) {
    exists k: nat :: k <= |a| && k < |b| && a[..k] == b[..k] && (k < |a| ==> a[k] < b[k])
  }

  lemma {:induction false} StringBeforeIs(a: string, b: string)
    ensures StringBefore(a, b) <==> FirstLess(a, b)
  {
    if a == "" && b != "" {
      assert a[..0] == b[..0];
    }
    if a != "" && b != "" {
      StringBeforeIs(a[1..], b[1..]);
      if a[0] < b[0] { assert a[..0] == b[..0]; }
      if a[0] == b[0] { FirstLessTail(a, b); }
      if k: nat :| k <= |a| && k < |b| && a[..k] == b[..k] && (k < |a| ==> a[k] < b[k]) {
        if k > 0 { assert a[..k][0] == a[0] && b[..k][0] == b[0]; }
      }
    }
  }

  lemma FirstLessTail(a: string, b: string)
    requires a != "" && b != "" && a[0] == b[0]
    ensures FirstLess(a, b) <==> FirstLess(a[1..], b[1..])
  {
    if FirstLess(a, b) {
      var k: nat :| k <= |a| && k < |b| && a[..k] == b[..k] && (k < |a| ==> a[k] < b[k]);
      assert k > 0;
      assert a[1..][..k - 1] == a[..k][1..] && b[1..][..k - 1] == b[..k][1..];
    }
    if FirstLess(a[1..], b[1..]) {
      var k: nat :| k <= |a[1..]| && k < |b[1..]| && a[1..][..k] == b[1..][..k]
                    && (k < |a[1..]| ==> a[1..][k] < b[1..][k]);
      assert a[..k + 1] == [a[0]] + a[1..][..k] && b[..k + 1] == [b[0]] + b[1..][..k];
    }
  }

  /** Along a sorted list distances never fall, and among equal ones the ids rise. */
  lemma SortedMeans(l: seq<Conflict>, i: int, j: int)
    requires Sorted(l) && 0 <= i < j < |l|
    ensures l[i].distance <= l[j].distance
    ensures l[i].distance == l[j].distance ==>
              || FirstLess(l[i].leftId, l[j].leftId)
              || (l[i].leftId == l[j].leftId && FirstLess(l[i].rightId, l[j].rightId))
  {
    hide FirstLess;
    assert ConflictBefore(l[i], l[j]);
    StringBeforeIs(l[i].leftId, l[j].leftId);
    StringBeforeIs(l[i].rightId, l[j].rightId);
  }

  /** Where c goes in a sorted list. */
  method Place(l: seq<Conflict>, c: Conflict) returns (k: nat)
    requires Sorted(l) && c !in l
    ensures k <= |l| && (forall i :: 0 <= i < k ==> ConflictBefore(l[i], c))
    ensures forall i :: k <= i < |l| ==> ConflictBefore(c, l[i])
  {
    hide ConflictBefore;
    k := 0;
    while k < |l| && ConflictBefore(l[k], c)
      invariant k <= |l| && forall i :: 0 <= i < k ==> ConflictBefore(l[i], c)
    {
      k := k + 1;
    }
    forall i | k <= i < |l| ensures ConflictBefore(c, l[i]) {
      assert l[k] in l;
      ConflictOrder(l[k], c, c);
      ConflictOrder(c, l[k], l[i]);
    }
  }

  /** sorted: the one ascending list of the given conflicts. */
  method SortConflicts(conflicts: seq<Conflict>) returns (l: seq<Conflict>)
    requires Different(conflicts)
    ensures Sorted(l) && forall c :: c in l <==> c in conflicts
  {
    hide ConflictBefore;
    l := [];
    for n := 0 to |conflicts|
      invariant Sorted(l) && forall c :: c in l <==> c in conflicts[..n]
    {
      var c := conflicts[n];
      assert conflicts[..n + 1] == conflicts[..n] + [c];
      assert c !in conflicts[..n];
      var k := Place(l, c);
      PlacedIsSorted(l, c, k);
      l := l[..k] + [c] + l[k..];
    }
    assert conflicts[..|conflicts|] == conflicts;
  }

  lemma PlacedIsSorted(l: seq<Conflict>, c: Conflict, k: nat)
    requires Sorted(l) && k <= |l|
    requires forall i :: 0 <= i < k ==> ConflictBefore(l[i], c)
    requires forall i :: k <= i < |l| ==> ConflictBefore(c, l[i])
    ensures Sorted(l[..k] + [c] + l[k..])
    ensures forall d :: d in l[..k] + [c] + l[k..] <==> d in l || d == c
  {
    hide ConflictBefore;
    var r := l[..k] + [c] + l[k..];
    forall i, j | 0 <= i < j < |r| ensures ConflictBefore(r[i], r[j]) {
      if i < k && j > k { assert ConflictBefore(l[i], l[j - 1]); }
      if i > k { assert ConflictBefore(l[i - 1], l[j - 1]); }
    }
    assert l == l[..k] + l[k..];
  }
}
