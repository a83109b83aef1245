/** The single-producer single-consumer ring (`SpscRingBuffer`) with the 64-bit counters
    the machine has: the buffer as one thread at a time sees it. */
module SpscRing {
  import opened WindowArith
  import opened WordArith

  /** What the source asserts about a capacity, for a 64-bit size_t. */
  predicate ValidCapacity(capacity: nat) {
    IsPowerOfTwo(capacity) && capacity < WORD
  }

  /** The slot of a wrapped counter: `counter & kMask`. */
  function SlotIndex(counter: nat, capacity: nat): (i: nat)
    requires ValidCapacity(capacity)
  {
    BitAnd(counter, capacity - 1)
  }

  /** Counters find their slot by the mask whether or not they have wrapped. */
  lemma SlotOfCount(count: nat, capacity: nat)
    requires ValidCapacity(capacity)
    ensures SlotIndex(Wrap(count), capacity) == count % capacity < capacity
  {
    PowerOfTwoCheck(capacity);
    var k: nat :| capacity == Pow2(k);
    if k > 64 {
      Pow2Monotone(64, k);
      Pow2Of64();
    }
    MaskAcrossWrap(count, k);
  }

  /** The items lie in consecutive slots from the one of count `pops` on. */
  ghost predicate Holds<T>(slots: seq<T>, pops: nat, items: seq<T>)
    requires slots != []
  {
    forall i :: 0 <= i < |items| ==> slots[(pops + i) % |slots|] == items[i]
  }

  lemma PushHolds<T>(slots: seq<T>, pops: nat, items: seq<T>, item: T)
    requires slots != [] && |items| < |slots| && Holds(slots, pops, items)
    ensures Holds(slots[(pops + |items|) % |slots| := item], pops, items + [item])
  {
    LapIsInjective(pops, |slots|);
  }

  lemma PopHolds<T>(slots: seq<T>, pops: nat, items: seq<T>)
    requires slots != [] && items != [] && Holds(slots, pops, items)
    ensures slots[pops % |slots|] == items[0] && Holds(slots, pops + 1, items[1..])
  {
    assert slots[(pops + 0) % |slots|] == items[0];
    forall i | 0 <= i < |items| - 1 ensures slots[(pops + 1 + i) % |slots|] == items[1..][i] {
      assert slots[(pops + (i + 1)) % |slots|] == items[i + 1];
    }
  }

  class SpscRingBuffer<T(0)> {
    const capacity: nat
    const storage: array<T>
    var head: nat  // 64-bit, next slot to pop
    var tail: nat  // 64-bit, next slot to push

    ghost var Items: seq<T>  // the buffered items, oldest first
    ghost var pops: nat      // how often head has been advanced, without wrapping

    ghost predicate Valid()
      reads this, storage
    {
      && ValidCapacity(capacity)
      && storage.Length == capacity
      && head == Wrap(pops)
      && tail == Wrap(pops + |Items|)
      && |Items| <= capacity
      && Holds(storage[..], pops, Items)
    }

    constructor (capacity: nat)
      requires ValidCapacity(capacity)
      ensures Valid() && fresh(storage) && this.capacity == capacity && Items == []
    {
      this.capacity := capacity;
      storage := new T[capacity];
      head, tail, pops, Items := 0, 0, 0, [];
    }

    method TryPush(item: T) returns (pushed: bool)
      requires Valid()
      modifies this`tail, this`Items, storage
      ensures Valid()
      ensures pushed <==> |old(Items)| < capacity
      ensures Items == if pushed then old(Items) + [item] else old(Items)
    {
      var count := pops + |Items|;
      WrappedDistance(count, pops);
      if Wrap(tail - head) >= capacity {
        return false;  // full
      }
      SlotOfCount(count, capacity);
      ghost var before := storage[..];
      storage[SlotIndex(tail, capacity)] := item;
      PushHolds(before, pops, Items, item);
      WrappedSum(count, 1);
      tail := Wrap(tail + 1);
      Items := Items + [item];
      return true;
    }

    /** Where it returns false the source leaves `out` as the caller passed it. */
    method TryPop(last: T) returns (popped: bool, out: T)
      requires Valid()
      modifies this`head, this`pops, this`Items
      ensures Valid()
      ensures popped <==> old(Items) != []
      ensures if popped then [out] + Items == old(Items) else Items == old(Items) && out == last
    {
      WrappedDistance(pops + |Items|, pops);
      if head == tail {
        return false, last;  // empty
      }
      SlotOfCount(pops, capacity);
      out := storage[SlotIndex(head, capacity)];
      PopHolds(storage[..], pops, Items);
      WrappedSum(pops, 1);
      head := Wrap(head + 1);
      pops := pops + 1;
      Items := Items[1..];
      return true, out;
    }
  }
}
