/** The bounded memory of idempotency keys. */
module Dedupe {

  /** A key and the delivery id it was accepted with. */
  datatype Entry<K, V> = Entry(key: K, id: V)

  /** How many of `n` entries a memory of `max` still holds: the newest ones. */
  function Kept(n: nat, max: nat): (k: nat)
    ensures k <= n && k <= max
  {
    if n <= max then n else max
  }

  /** Two acceptances of one key are more than `max` acceptances apart. */
  ghost predicate Spread<K(!new), V(!new)>(log: seq<Entry<K, V>>, max: nat) {
    forall i, j :: 0 <= i < j < |log| && log[i].key == log[j].key ==> j - i > max
  }

  ghost predicate Remembers<K(!new), V(!new)>(log: seq<Entry<K, V>>, max: nat, key: K) {
    exists i :: |log| - Kept(|log|, max) <= i < |log| && log[i].key == key
  }

  lemma AcceptKeepsSpread<K(!new), V(!new)>(log: seq<Entry<K, V>>, max: nat, e: Entry<K, V>)
    requires Spread(log, max) && !Remembers(log, max, e.key)
    ensures Spread(log + [e], max)
  {
  }

  /** The map and the queue hold the newest entries of the log, oldest first. */
  ghost predicate Holds<K(!new), V(!new)>(ids: map<K, V>, order: seq<K>, log: seq<Entry<K, V>>, max: nat) {
    |order| == Kept(|log|, max) && Mirrors(ids, order, log)
  }

  /** The queue is a suffix of the log's keys and the map has its ids. */
  ghost predicate Mirrors<K(!new), V(!new)>(ids: map<K, V>, order: seq<K>, log: seq<Entry<K, V>>) {
    AllHeld(ids, order, log) && forall k :: k in ids ==> k in order
  }

  ghost predicate AllHeld<K(!new), V(!new)>(ids: map<K, V>, order: seq<K>, log: seq<Entry<K, V>>) {
    |order| <= |log| && forall i :: 0 <= i < |order| ==> Held(ids, order[i], log[|log| - |order| + i])
  }

  ghost predicate Held<K(!new), V(!new)>(ids: map<K, V>, key: K, e: Entry<K, V>) {
    key == e.key && key in ids && ids[key] == e.id
  }

  lemma KnownIffRemembered<K(!new), V(!new)>(ids: map<K, V>, order: seq<K>, log: seq<Entry<K, V>>, max: nat, key: K)
    requires Holds(ids, order, log, max)
    ensures key in ids <==> Remembers(log, max, key)
    ensures key in ids ==> exists i :: |log| - Kept(|log|, max) <= i < |log| && log[i] == Entry(key, ids[key])
  {
    var first := |log| - |order|;
    if key in ids {
      var i :| 0 <= i < |order| && order[i] == key;
      assert Held(ids, order[i], log[first + i]);
      assert log[first + i] == Entry(key, ids[key]);
    }
    if i :| first <= i < |log| && log[i].key == key {
      assert Held(ids, order[i - first], log[first + (i - first)]);
    }
  }

  /** Dropping the oldest key and appending a new one. */
  lemma AcceptHolds<K(!new), V(!new)>(ids: map<K, V>, order: seq<K>, log: seq<Entry<K, V>>, max: nat, e: Entry<K, V>)
    requires max >= 1 && Holds(ids, order, log, max) && Spread(log, max) && e.key !in ids
    ensures var full := |order| >= max;
      var ids' := if full then ids - {order[0]} else ids;
      var order' := if full then order[1..] else order;
      Holds(ids'[e.key := e.id], order' + [e.key], log + [e], max)
  {
    if |order| >= max {
      EvictMirrors(ids, order, log, max);
      AppendMirrors(ids - {order[0]}, order[1..], log, e);
    } else {
      AppendMirrors(ids, order, log, e);
    }
  }

  lemma EvictMirrors<K(!new), V(!new)>(ids: map<K, V>, order: seq<K>, log: seq<Entry<K, V>>, max: nat)
    requires Mirrors(ids, order, log) && Spread(log, max) && 0 < |order| <= max
    ensures Mirrors(ids - {order[0]}, order[1..], log)
  {
    NewerStayHeld(ids, order, log, max, ids - {order[0]}, order[1..]);
    OthersStay(order);
  }

  lemma NewerStayHeld<K(!new), V(!new)>(ids: map<K, V>, order: seq<K>, log: seq<Entry<K, V>>, max: nat,
      ids': map<K, V>, rest: seq<K>)
    requires AllHeld(ids, order, log) && Spread(log, max) && 0 < |order| <= max
    requires ids' == ids - {order[0]} && rest == order[1..]
    ensures AllHeld(ids', rest, log)
  {
    forall i | 0 <= i < |rest|
      ensures Held(ids', rest[i], log[|log| - |rest| + i])
    {
      NewerStays(ids, order, log, max, i + 1);
    }
  }

  lemma NewerStays<K(!new), V(!new)>(ids: map<K, V>, order: seq<K>, log: seq<Entry<K, V>>, max: nat, i: nat)
    requires AllHeld(ids, order, log) && Spread(log, max) && 0 < i < |order| <= max
    ensures Held(ids - {order[0]}, order[i], log[|log| - |order| + i])
  {
    var first := |log| - |order|;
    assert Held(ids, order[0], log[first + 0]) && Held(ids, order[i], log[first + i]);
    assert log[first].key != log[first + i].key;
  }

  lemma OthersStay<K(!new)>(order: seq<K>)
    requires order != []
    ensures forall k :: k in order && k != order[0] ==> k in order[1..]
  {
  }

  lemma AppendMirrors<K(!new), V(!new)>(ids: map<K, V>, order: seq<K>, log: seq<Entry<K, V>>, e: Entry<K, V>)
    requires Mirrors(ids, order, log) && e.key !in ids
    ensures Mirrors(ids[e.key := e.id], order + [e.key], log + [e])
  {
    var first := |log| - |order|;
    forall i | 0 <= i < |order|
      ensures Held(ids[e.key := e.id], (order + [e.key])[i], (log + [e])[first + i])
    {
      assert Held(ids, order[i], log[first + i]);
    }
    forall k | k in ids
      ensures k in order + [e.key]
    {
      assert k in order;
    }
  }

  lemma {:induction false} DistinctCount<K(!new)>(order: seq<K>)
    requires forall i, j :: 0 <= i < j < |order| ==> order[i] != order[j]
    ensures |set k | k in order| == |order|
  {
    if order != [] {
      var n := |order| - 1;
      DistinctCount(order[..n]);
      assert (set k | k in order) == (set k | k in order[..n]) + {order[n]};
    }
  }

  lemma HeldCount<K(!new), V(!new)>(ids: map<K, V>, order: seq<K>, log: seq<Entry<K, V>>, max: nat)
    requires Holds(ids, order, log, max) && Spread(log, max)
    ensures |ids| == |order|
  {
    var first := |log| - |order|;
    forall i, j | 0 <= i < j < |order|
      ensures order[i] != order[j]
    {
      assert Held(ids, order[i], log[first + i]) && Held(ids, order[j], log[first + j]);
    }
    DistinctCount(order);
    forall k | k in order
      ensures k in ids
    {
      var i :| 0 <= i < |order| && order[i] == k;
      assert Held(ids, order[i], log[first + i]);
    }
    assert ids.Keys == set k | k in order;
  }

  class Dedupe<K(==,!new), V(!new)> {
    const max: nat
    var ids: map<K, V>
    var order: seq<K>
    ghost var Log: seq<Entry<K, V>>  // every acceptance since the start

    ghost predicate Valid()
      reads this
    {
      max >= 1 && Spread(Log, max) && Holds(ids, order, Log, max)
    }

    constructor (max: int)
      ensures Valid() && Log == [] && this.max == if max < 1 then 1 else max
    {
      this.max := if max < 1 then 1 else max;
      ids, order, Log := map[], [], [];
    }

    /** A key still remembered gets the id it was accepted with and is not accepted again; any
        other is accepted, pushing out the oldest if the memory is full. */
    method Check(key: K, id: V) returns (known: V, duplicate: bool)
      requires Valid()
      modifies this
      ensures Valid()
      ensures duplicate <==> old(Remembers(Log, max, key))
      ensures Log == if duplicate then old(Log) else old(Log) + [Entry(key, id)]
      ensures duplicate ==> exists i :: |Log| - Kept(|Log|, max) <= i < |Log| && Log[i] == Entry(key, known)
      ensures !duplicate ==> known == id
    {
      KnownIffRemembered(ids, order, Log, max, key);
      if key in ids {
        return ids[key], true;
      }
      AcceptKeepsSpread(Log, max, Entry(key, id));
      AcceptHolds(ids, order, Log, max, Entry(key, id));
      if |order| >= max {
        var oldest := order[0];
        order := order[1..];
        ids := ids - {oldest};
      }
      ids := ids[key := id];
      order := order + [key];
      Log := Log + [Entry(key, id)];
      return id, false;
    }

    method Len() returns (n: nat)
      requires Valid()
      ensures n == Kept(|Log|, max)
    {
      HeldCount(ids, order, Log, max);
      return |ids|;
    }
  }
}
