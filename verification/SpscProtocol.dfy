/** `SpscRingBuffer` with the producer and the consumer running at the same time.

    Every atomic load and store is a step and so is every payload word.  Counters wrap at
    2^64.  A load of the other side's counter may return any value that counter has had
    since the value this thread last saw (coherence: a thread never reads backwards). */
module SpscProtocol {
  import opened Wrappers
  import opened WindowArith
  import opened WordArith
  import opened Sequences
  import opened SpscRing

  type Item = seq<int>  // the words of one payload

  datatype Producer =
    | Idle
    | Entered(item: Item)             // has its own tail, about to load head_
    | Writing(item: Item, done: nat)  // found room; `done` words are stored

  datatype Consumer =
    | Ready             // outside try_pop, or about to load tail_
    | Reading(got: Item)

  datatype State = State(
    storage: seq<Item>,
    head: nat,  // 64-bit counters
    tail: nat,
    producer: Producer,
    consumer: Consumer,
    headSeen: nat,  // how many pops the producer has seen
    tailSeen: nat,  // how many pushes the consumer has seen
    // what has happened so far
    pushed: seq<Item>,
    popped: seq<Item>)

  datatype Event =
    | Call(item: Item)
    | LoadHead(seen: nat)  // the value head_ had after `seen` pops
    | StoreWord
    | PublishTail
    | LoadTail(seen: nat)  // the value tail_ had after `seen` pushes
    | CopyWord
    | PublishHead

  datatype Ring = Ring(capacity: nat, width: nat) {

    predicate WellFormed() { ValidCapacity(capacity) }

    function Init(): State
      requires WellFormed()
    {
      State(seq(capacity, _ => seq(width, _ => 0)), 0, 0, Idle, Ready, 0, 0, [], [])
    }

    ghost predicate Shape(s: State) {
      && WellFormed()
      && |s.storage| == capacity
      && (forall i :: 0 <= i < capacity ==> |s.storage[i]| == width)
      && s.head < WORD && s.tail < WORD
      && SlotIndex(s.head, capacity) < capacity
      && SlotIndex(s.tail, capacity) < capacity
    }

    ghost predicate Enabled(s: State, e: Event)
      requires Shape(s)
    {
      match e
      case Call(item) => s.producer.Idle? && |item| == width
      case LoadHead(seen) => s.producer.Entered? && s.headSeen <= seen <= |s.popped|
      case StoreWord => s.producer.Writing? && s.producer.done < width <= |s.producer.item|
      case PublishTail => s.producer.Writing? && s.producer.done == width
      case LoadTail(seen) => s.consumer.Ready? && s.tailSeen <= seen <= |s.pushed|
      case CopyWord => s.consumer.Reading? && |s.consumer.got| < width
      case PublishHead => s.consumer.Reading? && |s.consumer.got| == width
    }

    ghost function Step(s: State, e: Event): State
      requires Shape(s) && Enabled(s, e)
    {
      match e
      case Call(item) => s.(producer := Entered(item))
      case LoadHead(seen) =>
        s.(headSeen := seen,
           producer := if Wrap(s.tail - Wrap(seen)) >= capacity then Idle  // full: return false
                       else Writing(s.producer.item, 0))
      case StoreWord =>
        var Writing(item, done) := s.producer;
        var slot := SlotIndex(s.tail, capacity);
        s.(producer := Writing(item, done + 1),
           storage := s.storage[slot := s.storage[slot][done := item[done]]])
      case PublishTail =>
        s.(producer := Idle, tail := Wrap(s.tail + 1), pushed := s.pushed + [s.producer.item])
      case LoadTail(seen) =>
        s.(tailSeen := seen,
           consumer := if s.head == Wrap(seen) then Ready  // empty: return false
                       else Reading([]))
      case CopyWord =>
        var got := s.consumer.got;
        s.(consumer := Reading(got + [s.storage[SlotIndex(s.head, capacity)][|got|]]))
      case PublishHead =>
        s.(consumer := Ready, head := Wrap(s.head + 1), popped := s.popped + [s.consumer.got])
    }

    /** Runs a list of events; None when one of them is not enabled. */
    ghost function Exec(es: seq<Event>): (r: Option<State>)
      requires WellFormed()
    {
      if es == [] then Some(Init())
      else
        match Exec(es[..|es| - 1])
        case None => None
        case Some(s) =>
          var e := es[|es| - 1];
          if Shape(s) && Enabled(s, e) then Some(Step(s, e)) else None
    }

    // ----- What the ring is for -----

    /** A bounded FIFO: what is popped is a prefix of what is pushed, at most `capacity`
        items are in between, and the threads never meet in a slot. */
    ghost predicate Safe(s: State)
      requires Shape(s)
    {
      && s.popped <= s.pushed
      && |s.pushed| - |s.popped| <= capacity
      && (s.producer.Writing? && s.consumer.Reading? ==>
            SlotIndex(s.tail, capacity) != SlotIndex(s.head, capacity))
      && (s.producer.Entered? ==> PushRefusalExact(s))
      && (s.consumer.Ready? ==> PopRefusalExact(s))
    }

    /** A push returns false exactly when the ring was full at the pop count it saw; with
        an up-to-date view, exactly when it is full now. */
    ghost predicate PushRefusalExact(s: State)
      requires Shape(s) && s.producer.Entered?
    {
      forall seen :: s.headSeen <= seen <= |s.popped| ==>
        (Step(s, LoadHead(seen)).producer.Idle? <==> |s.pushed| == seen + capacity)
    }

    /** A pop returns false exactly when the consumer saw no item it has not popped. */
    ghost predicate PopRefusalExact(s: State)
      requires Shape(s) && s.consumer.Ready?
    {
      forall seen :: s.tailSeen <= seen <= |s.pushed| ==>
        (Step(s, LoadTail(seen)).consumer.Ready? <==> seen == |s.popped|)
    }

    // ----- The inductive invariant -----

    /** What is pushed but not popped lies in its slots. */
    ghost predicate Stored(storage: seq<Item>, pushed: seq<Item>, pops: nat)
      requires |storage| == capacity >= 1
    {
      forall i :: pops <= i < |pushed| ==> storage[i % capacity] == pushed[i]
    }

    lemma PushStored(storage: seq<Item>, pushed: seq<Item>, pops: nat, item: Item)
      requires |storage| == capacity >= 1 && Stored(storage, pushed, pops)
      requires |item| == |storage[|pushed| % capacity]| == width
      requires storage[|pushed| % capacity][..width] == item[..width]
      ensures Stored(storage, pushed + [item], pops)
    {
      var slot := storage[|pushed| % capacity];
      assert slot[..width] == slot && item[..width] == item;
    }

    lemma PopStored(storage: seq<Item>, pushed: seq<Item>, pops: nat)
      requires |storage| == capacity >= 1 && Stored(storage, pushed, pops)
      ensures Stored(storage, pushed, pops + 1)
    {
    }

    lemma PopIsNext(popped: seq<Item>, pushed: seq<Item>, got: Item)
      requires popped <= pushed && |popped| < |pushed| && got <= pushed[|popped|] && |got| == |pushed[|popped|]|
      ensures popped + [got] <= pushed
    {
      assert got == pushed[|popped|];
    }

    /** A writing producer has room, and has stored the first words of its item. */
    ghost predicate ProducerOk(producer: Producer, storage: seq<Item>, pushes: nat, headSeen: nat)
      requires |storage| == capacity >= 1 && forall i :: 0 <= i < capacity ==> |storage[i]| == width
    {
      match producer
      case Idle => true
      case Entered(item) => |item| == width
      case Writing(item, done) =>
        && pushes < headSeen + capacity
        && |item| == width
        && done <= width
        && storage[pushes % capacity][..done] == item[..done]
    }

    ghost predicate Inv(s: State) {
      && Shape(s)
      && s.head == Wrap(|s.popped|) && s.tail == Wrap(|s.pushed|)
      && s.headSeen <= |s.popped| <= s.tailSeen <= |s.pushed| <= s.headSeen + capacity
      && s.popped <= s.pushed
      && (forall i :: 0 <= i < |s.pushed| ==> |s.pushed[i]| == width)
      && Stored(s.storage, s.pushed, |s.popped|)
      && ProducerOk(s.producer, s.storage, |s.pushed|, s.headSeen)
      && (s.consumer.Reading? ==>
            && |s.popped| < s.tailSeen
            && s.consumer.got <= s.pushed[|s.popped|])
    }

    lemma CountersStayMasked(pops: nat, pushes: nat)
      requires WellFormed()
      ensures SlotIndex(Wrap(pops), capacity) == pops % capacity < capacity
      ensures SlotIndex(Wrap(pushes), capacity) == pushes % capacity < capacity
    {
      SlotOfCount(pops, capacity);
      SlotOfCount(pushes, capacity);
    }

    lemma NextCounter(counter: nat, count: nat)
      requires WellFormed() && counter == Wrap(count)
      ensures Wrap(counter + 1) == Wrap(count + 1) && SlotIndex(Wrap(counter + 1), capacity) < capacity
    {
      WrappedSum(count, 1);
      CountersStayMasked(count + 1, count + 1);
    }

    lemma InitInv()
      requires WellFormed()
      ensures Inv(Init())
    {
      CountersStayMasked(0, 0);
    }

    lemma CallStep(s: State, item: Item)
      requires Inv(s) && Enabled(s, Call(item))
      ensures Inv(Step(s, Call(item)))
    {
    }

    lemma LoadHeadStep(s: State, seen: nat)
      requires Inv(s) && Enabled(s, LoadHead(seen))
      ensures Inv(Step(s, LoadHead(seen)))
    {
      WrappedDistance(|s.pushed|, seen);
      assert s.producer.item[..0] == [] && s.storage[|s.pushed| % capacity][..0] == [];
    }

    lemma LoadTailStep(s: State, seen: nat)
      requires Inv(s) && Enabled(s, LoadTail(seen))
      ensures Inv(Step(s, LoadTail(seen)))
    {
      WrappedDistance(seen, |s.popped|);
    }

    lemma StoreStep(s: State)
      requires Inv(s) && Enabled(s, StoreWord)
      ensures Inv(Step(s, StoreWord))
    {
      CountersStayMasked(|s.popped|, |s.pushed|);
      LapIsInjective(|s.popped|, capacity);
    }

    lemma PublishTailStep(s: State)
      requires Inv(s) && Enabled(s, PublishTail)
      ensures Inv(Step(s, PublishTail))
    {
      NextCounter(s.tail, |s.pushed|);
      PushStored(s.storage, s.pushed, |s.popped|, s.producer.item);
    }

    lemma CopyStep(s: State)
      requires Inv(s) && Enabled(s, CopyWord)
      ensures Inv(Step(s, CopyWord))
    {
      CountersStayMasked(|s.popped|, |s.pushed|);
    }

    lemma PublishHeadStep(s: State)
      requires Inv(s) && Enabled(s, PublishHead)
      ensures Inv(Step(s, PublishHead))
    {
      NextCounter(s.head, |s.popped|);
      PopStored(s.storage, s.pushed, |s.popped|);
      PopIsNext(s.popped, s.pushed, s.consumer.got);
    }

    lemma StepInv(s: State, e: Event)
      requires Inv(s) && Enabled(s, e)
      ensures Inv(Step(s, e))
    {
      match e
      case Call(item) => CallStep(s, item);
      case LoadHead(seen) => LoadHeadStep(s, seen);
      case StoreWord => StoreStep(s);
      case PublishTail => PublishTailStep(s);
      case LoadTail(seen) => LoadTailStep(s, seen);
      case CopyWord => CopyStep(s);
      case PublishHead => PublishHeadStep(s);
    }

    lemma InvIsSafe(s: State)
      requires Inv(s)
      ensures Safe(s)
    {
      CountersStayMasked(|s.popped|, |s.pushed|);
      LapIsInjective(|s.popped|, capacity);
      forall seen | s.headSeen <= seen <= |s.popped|
        ensures Wrap(s.tail - Wrap(seen)) == |s.pushed| - seen
      {
        WrappedDistance(|s.pushed|, seen);
      }
      forall seen | s.tailSeen <= seen <= |s.pushed|
        ensures s.head == Wrap(seen) <==> seen == |s.popped|
      {
        WrappedDistance(seen, |s.popped|);
      }
    }

    /** Every run is safe, however stale the views and however often the counters wrap. */
    lemma {:induction false} RunsAreSafe(es: seq<Event>)
      requires WellFormed() && Exec(es).Some?
      ensures Inv(Exec(es).value) && Safe(Exec(es).value)
    {
      if es == [] {
        InitInv();
      } else {
        var before := es[..|es| - 1];
        RunsAreSafe(before);
        StepInv(Exec(before).value, es[|es| - 1]);
      }
      InvIsSafe(Exec(es).value);
    }

    // ----- Which calls were pushed -----

    /** The items `try_push` was called with. */
    static function Called(es: seq<Event>): seq<Item> {
      if es == [] then []
      else
        var e := es[|es| - 1];
        Called(es[..|es| - 1]) + if e.Call? then [e.item] else []
    }

    /** Which of those calls have published their item. */
    static function PublishedCalls(es: seq<Event>): seq<int> {
      if es == [] then []
      else
        var before := es[..|es| - 1];
        PublishedCalls(before) + if es[|es| - 1].PublishTail? then [|Called(before)| - 1] else []
    }

    /** The producer is still busy with the last call. */
    static ghost predicate InLastCall(producer: Producer, called: seq<Item>, calls: seq<int>) {
      !producer.Idle? ==>
        && called != [] && producer.item == called[|called| - 1]
        && forall i :: 0 <= i < |calls| ==> calls[i] < |called| - 1
    }

    /** What is pushed are the items of some of the calls, each once and in order. */
    lemma {:induction false} PushesAreCalls(es: seq<Event>)
      requires WellFormed() && Exec(es).Some?
      ensures Chosen(Exec(es).value.pushed, Called(es), PublishedCalls(es))
      ensures InLastCall(Exec(es).value.producer, Called(es), PublishedCalls(es))
    {
      if es != [] {
        var before, e := es[..|es| - 1], es[|es| - 1];
        PushesAreCalls(before);
        var s, called, calls := Exec(before).value, Called(before), PublishedCalls(before);
        assert called + [] == called && calls + [] == calls;
        if e.Call? {
          ChosenFromMore(s.pushed, called, calls, e.item);
        } else if e.PublishTail? {
          ChooseLast(s.pushed, called, calls);
        }
      }
    }

    // ----- Every call is answered -----

    /** The event answers false: it loads a pop count at which the ring was full, or a push
        count at which it was empty. */
    predicate Refuses(s: State, e: Event) {
      match e
      case LoadHead(seen) => |s.pushed| == seen + capacity
      case LoadTail(seen) => seen == |s.popped|
      case _ => false
    }

    /** How many pushes, or pops, have been refused. */
    ghost function Refusals(es: seq<Event>, pushing: bool): nat
      requires WellFormed()
    {
      if es == [] then 0
      else
        var before, e := es[..|es| - 1], es[|es| - 1];
        var r := Exec(before);
        Refusals(before, pushing)
        + if r.Some? && Refuses(r.value, e) && (if pushing then e.LoadHead? else e.LoadTail?) then 1 else 0
    }

    static function Pops(es: seq<Event>): nat {
      if es == [] then 0 else Pops(es[..|es| - 1]) + if es[|es| - 1].LoadTail? then 1 else 0
    }

    lemma StepAnswers(s: State, e: Event)
      requires Inv(s) && Enabled(s, e)
      ensures var t := Step(s, e);
        && (if t.producer.Idle? then 0 else 1) + |t.pushed| + (if e.LoadHead? && Refuses(s, e) then 1 else 0)
           == (if s.producer.Idle? then 0 else 1) + |s.pushed| + (if e.Call? then 1 else 0)
        && (if t.consumer.Ready? then 0 else 1) + |t.popped| + (if e.LoadTail? && Refuses(s, e) then 1 else 0)
           == (if s.consumer.Ready? then 0 else 1) + |s.popped| + (if e.LoadTail? then 1 else 0)
    {
      InvIsSafe(s);
    }

    /** Every call has pushed its item, was refused because the ring was full, or empty, at
        the count it loaded, or is still under way. */
    lemma {:induction false} CallsAreAnswered(es: seq<Event>)
      requires WellFormed() && Exec(es).Some?
      ensures var s := Exec(es).value;
        && |Called(es)| == |s.pushed| + Refusals(es, true) + (if s.producer.Idle? then 0 else 1)
        && Pops(es) == |s.popped| + Refusals(es, false) + (if s.consumer.Ready? then 0 else 1)
    {
      if es != [] {
        var before := es[..|es| - 1];
        CallsAreAnswered(before);
        RunsAreSafe(before);
        StepAnswers(Exec(before).value, es[|es| - 1]);
      }
    }

    // ----- No thread waits for the other -----

    lemma Then(es: seq<Event>, more: seq<Event>, e: Event)
      requires WellFormed() && Exec(es + more).Some?
      requires Shape(Exec(es + more).value) && Enabled(Exec(es + more).value, e)
      ensures Exec(es + (more + [e])) == Some(Step(Exec(es + more).value, e))
    {
      var all := es + (more + [e]);
      assert all[..|all| - 1] == es + more;
    }

    lemma {:induction false} SoloFill(es: seq<Event>, more: seq<Event>) returns (more': seq<Event>)
      requires WellFormed() && Exec(es + more).Some? && Exec(es + more).value.producer.Writing?
      requires Exec(es + more).value.producer.done <= width
      ensures var s := Exec(es + more).value;
        && |more'| == |more| + width - s.producer.done
        && Exec(es + more').Some? && Exec(es + more').value.pushed == s.pushed
        && Exec(es + more').value.producer == Writing(s.producer.item, width)
      decreases width - Exec(es + more).value.producer.done
    {
      RunsAreSafe(es + more);
      more' := more;
      if Exec(es + more).value.producer.done < width {
        Then(es, more, StoreWord);
        more' := SoloFill(es, more + [StoreWord]);
      }
    }

    /** Wherever the consumer has stopped, a push takes at most width + 3 steps: its item is
        in if the ring has room, else it is refused. */
    lemma SoloPush(es: seq<Event>, item: Item) returns (more: seq<Event>)
      requires WellFormed() && Exec(es).Some? && Exec(es).value.producer.Idle? && |item| == width
      ensures |more| <= width + 3 && Exec(es + more).Some? && Exec(es + more).value.producer.Idle?
      ensures var s, t := Exec(es).value, Exec(es + more).value;
        t.pushed == s.pushed + if |s.pushed| - |s.popped| < capacity then [item] else []
    {
      var s := Exec(es).value;
      assert es + [] == es;
      RunsAreSafe(es);
      Then(es, [], Call(item));
      more := [] + [Call(item)];
      RunsAreSafe(es + more);
      assert PushRefusalExact(Exec(es + more).value);
      Then(es, more, LoadHead(|s.popped|));
      more := more + [LoadHead(|s.popped|)];
      if |s.pushed| - |s.popped| < capacity {
        more := SoloFill(es, more);
        RunsAreSafe(es + more);
        Then(es, more, PublishTail);
        more := more + [PublishTail];
      }
    }

    lemma {:induction false} SoloCopy(es: seq<Event>, more: seq<Event>) returns (more': seq<Event>)
      requires WellFormed() && Exec(es + more).Some? && Exec(es + more).value.consumer.Reading?
      requires |Exec(es + more).value.consumer.got| <= width
      ensures var s := Exec(es + more).value;
        && |more'| == |more| + width - |s.consumer.got|
        && Exec(es + more').Some? && Exec(es + more').value.popped == s.popped
        && Exec(es + more').value.consumer.Reading? && |Exec(es + more').value.consumer.got| == width
      decreases width - |Exec(es + more).value.consumer.got|
    {
      RunsAreSafe(es + more);
      more' := more;
      if |Exec(es + more).value.consumer.got| < width {
        Then(es, more, CopyWord);
        more' := SoloCopy(es, more + [CopyWord]);
      }
    }

    /** Wherever the producer has stopped, a pop takes at most width + 2 steps: it returns an
        item if one is in, else it is refused. */
    lemma SoloPop(es: seq<Event>) returns (more: seq<Event>)
      requires WellFormed() && Exec(es).Some? && Exec(es).value.consumer.Ready?
      ensures |more| <= width + 2 && Exec(es + more).Some? && Exec(es + more).value.consumer.Ready?
      ensures var s, t := Exec(es).value, Exec(es + more).value;
        |t.popped| == |s.popped| + if |s.popped| < |s.pushed| then 1 else 0
    {
      var s := Exec(es).value;
      assert es + [] == es;
      RunsAreSafe(es);
      assert PopRefusalExact(s);
      Then(es, [], LoadTail(|s.pushed|));
      more := [] + [LoadTail(|s.pushed|)];
      if |s.popped| < |s.pushed| {
        more := SoloCopy(es, more);
        RunsAreSafe(es + more);
        Then(es, more, PublishHead);
        more := more + [PublishHead];
      }
    }

    // ----- Refinement of a bounded FIFO queue -----

    /** The queue a reader of the interface sees. */
    ghost function Queue(s: State): seq<Item>
      requires s.popped <= s.pushed
    {
      s.pushed[|s.popped|..]
    }

    /** Each step is one queue operation or none: publishing tail_ enqueues the producer's
        item into a queue that is not full, publishing head_ dequeues the oldest one. */
    lemma StepsRefineFifo(s: State, e: Event)
      requires Inv(s) && Enabled(s, e)
      ensures var t := Step(s, e);
        && t.popped <= t.pushed
        && (e.PublishTail? ==> |Queue(s)| < capacity && Queue(t) == Queue(s) + [s.producer.item])
        && (e.PublishHead? ==> Queue(s) != [] && t.popped == s.popped + [Queue(s)[0]] && Queue(t) == Queue(s)[1..])
        && (!e.PublishTail? && !e.PublishHead? ==> Queue(t) == Queue(s))
    {
      StepInv(s, e);
    }
  }
}
