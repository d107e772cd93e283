/** The load-order queue both Rust caches keep beside their map. */
module Fifo {

  datatype Capacity = Unbounded | AtMost(limit: nat)

  ghost predicate Distinct<K(!new)>(order: seq<K>) {
    forall i, j :: 0 <= i < j < |order| ==> order[i] != order[j]
  }

  /** The queue lists each cached key once, and nothing else. */
  ghost predicate Tracks<K(!new)>(order: seq<K>, keys: set<K>) {
    Distinct(order) && forall k :: k in order <==> k in keys
  }

  ghost predicate Fits<K(!new)>(order: seq<K>, capacity: Capacity) {
    capacity.AtMost? ==> |order| <= capacity.limit
  }

  lemma {:induction false} TracksCount<K(!new)>(order: seq<K>, keys: set<K>)
    requires Tracks(order, keys)
    ensures |order| == |keys|
  {
    if order == [] {
      assert keys == {};
    } else {
      PopFront(order, keys);
      TracksCount(order[1..], keys - {order[0]});
    }
  }

  lemma PopFront<K(!new)>(order: seq<K>, keys: set<K>)
    requires Tracks(order, keys) && order != []
    ensures order[0] in keys && Tracks(order[1..], keys - {order[0]})
  {
    forall k ensures k in order[1..] <==> k in keys - {order[0]} {
      if k in order && k != order[0] {
        var i :| 0 <= i < |order| && order[i] == k;
        assert order[1..][i - 1] == k;
      }
    }
  }

  lemma PushBack<K(!new)>(order: seq<K>, keys: set<K>, k: K)
    requires Tracks(order, keys) && k !in keys
    ensures Tracks(order + [k], keys + {k})
  {
    forall x ensures x in order + [k] <==> x in keys + {k} {
    }
    forall i, j | 0 <= i < j < |order + [k]| ensures (order + [k])[i] != (order + [k])[j] {
      if j == |order| { assert order[i] in order; }
    }
  }

  /** The queue once room has been made for one more key: the oldest keys are gone. */
  function Evicted<K(!new)>(order: seq<K>, capacity: Capacity): seq<K>
    requires capacity != AtMost(0)
  {
    if capacity.AtMost? && |order| >= capacity.limit then order[|order| - (capacity.limit - 1)..] else order
  }

  lemma EvictedIs<K(!new)>(order: seq<K>, capacity: Capacity)
    requires capacity != AtMost(0) && Fits(order, capacity)
    ensures Evicted(order, capacity)
         == if capacity.AtMost? && |order| >= capacity.limit then order[1..] else order
  {}

  lemma EvictedKeeps<K(!new)>(order: seq<K>, capacity: Capacity, k: K)
    requires capacity != AtMost(0) && k !in order
    ensures k !in Evicted(order, capacity)
  {}

  /** The queue after key k has been asked for and its load has succeeded. */
  function AfterLoad<K(==,!new)>(order: seq<K>, capacity: Capacity, k: K): seq<K>
    requires capacity != AtMost(0)
  {
    if k in order then order else Evicted(order, capacity) + [k]
  }

  /** Asking for a key leaves it cached, keeps the queue duplicate-free and within the
      capacity, and drops no more than the oldest keys. */
  lemma AfterLoadIsSound<K(!new)>(order: seq<K>, capacity: Capacity, k: K)
    requires capacity != AtMost(0) && Distinct(order) && Fits(order, capacity)
    ensures var next := AfterLoad(order, capacity, k);
            && Distinct(next) && Fits(next, capacity) && k in next
            && (forall x :: x in next ==> x in order || x == k)
            && (forall x :: x in order && x !in next ==> capacity.AtMost? && |order| == capacity.limit && x == order[0])
  {
    var next := AfterLoad(order, capacity, k);
    if k !in order {
      var kept := Evicted(order, capacity);
      assert next == kept + [k];
      if capacity.AtMost? && |order| >= capacity.limit {
        assert kept == order[1..];
        assert order == [order[0]] + kept;
      } else {
        assert kept == order;
      }
      forall i, j | 0 <= i < j < |next| ensures next[i] != next[j] {
        if j == |kept| { assert kept[i] in kept; assert kept[i] in order; }
      }
      assert next[|kept|] == k;
    }
  }

  /** The queue is not a record of use: asked for a, b, a and then c with room for two, it drops a,
      although a was used after b. */
  lemma NotLeastRecentlyUsed<K(!new)>(a: K, b: K, c: K)
    requires a != b && a != c && b != c
    ensures var room := AtMost(2);
            var once := AfterLoad(AfterLoad([], room, a), room, b);
            once == [a, b] && AfterLoad(once, room, a) == once && AfterLoad(once, room, c) == [b, c]
  {}
}
