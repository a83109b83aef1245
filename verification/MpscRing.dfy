/** The multi-producer single-consumer ring (`MpscRingBuffer`) as a state machine.

    Every atomic load, store and compare-exchange of `try_push` and `try_pop` is one
    step, and so is every payload word stored into, or copied out of, a slot; a run is
    any list of enabled steps of any number of producers and of the one consumer.
    Cursor loads may return any earlier value of the cursor, and a compare-exchange may
    fail for no reason.  Counters are unbounded here; `MpscWords` has the 64-bit ones. */
module MpscRing {
  import opened Wrappers
  import opened Sequences
  import opened WindowArith

  type Item = seq<int>  // the words of one payload

  datatype Slot = Slot(data: Item, sequence: nat)

  /** Where one producer is inside `try_push`. */
  datatype Producer =
    | Idle
    | Loading(item: Item)                       // about to load write_cursor_
    | AtSlot(item: Item, pos: nat)              // about to load the slot's sequence
    | AtCas(item: Item, pos: nat)               // saw diff == 0, about to compare-exchange
    | Writing(item: Item, pos: nat, done: nat)  // owns `pos`; `done` words are stored

  /** Where the consumer is inside `try_pop`. */
  datatype Consumer =
    | Ready
    | Reading(got: Item)   // sequence matched; the words copied so far
    | Recycled(got: Item)  // slot handed back, read_cursor_ not yet advanced

  datatype Claim = Claim(owner: nat, item: Item)

  datatype State = State(
    slots: seq<Slot>,
    writeCursor: nat,
    readCursor: nat,
    producers: seq<Producer>,
    consumer: Consumer,
    // what has happened so far
    claimed: seq<Claim>,        // by position
    popped: seq<Item>,          // what try_pop has returned, in order
    returned: seq<seq<Item>>)   // per producer, the items whose try_push has returned true

  datatype Event =
    | Call(p: nat, item: Item)
    | LoadCursor(p: nat, seen: nat)
    | LoadSequence(p: nat)
    | CasSucceeds(p: nat)
    | CasFails(p: nat, seen: nat)
    | StoreWord(p: nat)
    | Publish(p: nat)
    | Check
    | CopyWord
    | Recycle
    | Advance

  datatype Ring = Ring(capacity: nat, width: nat, threads: nat) {

    predicate WellFormed() { capacity >= 1 }

    function Init(): State
      requires WellFormed()
    {
      State(seq(capacity, i requires 0 <= i => Slot(seq(width, _ => 0), i)), 0, 0,
            seq(threads, _ => Idle), Ready, [], [], seq(threads, _ => []))
    }

    /** The slot position `pos` maps to (`pos & kMask`, see `WindowArith.MaskIsMod`). */
    function SlotOf(s: State, pos: nat): Slot
      requires WellFormed() && |s.slots| == capacity
    {
      s.slots[pos % capacity]
    }

    predicate Shape(s: State) {
      && WellFormed()
      && |s.slots| == capacity
      && (forall i :: 0 <= i < capacity ==> |s.slots[i].data| == width)
      && |s.producers| == |s.returned| == threads
      && |s.claimed| == s.writeCursor
      && |s.popped| == s.readCursor
    }

    predicate Enabled(s: State, e: Event)
      requires Shape(s)
    {
      match e
      case Call(p, item) => p < threads && s.producers[p].Idle? && |item| == width
      case LoadCursor(p, seen) => p < threads && s.producers[p].Loading? && seen <= s.writeCursor
      case LoadSequence(p) => p < threads && s.producers[p].AtSlot?
      case CasSucceeds(p) => p < threads && s.producers[p].AtCas? && s.producers[p].pos == s.writeCursor
      case CasFails(p, seen) => p < threads && s.producers[p].AtCas? && seen <= s.writeCursor
      case StoreWord(p) =>
        p < threads && s.producers[p].Writing? && s.producers[p].done < width <= |s.producers[p].item|
      case Publish(p) => p < threads && s.producers[p].Writing? && s.producers[p].done == width
      case Check => s.consumer.Ready?
      case CopyWord => s.consumer.Reading? && |s.consumer.got| < width
      case Recycle => s.consumer.Reading? && |s.consumer.got| == width
      case Advance => s.consumer.Recycled?
    }

    function Step(s: State, e: Event): State
      requires Shape(s) && Enabled(s, e)
    {
      match e
      case Call(p, item) => s.(producers := s.producers[p := Loading(item)])
      case LoadCursor(p, seen) => s.(producers := s.producers[p := AtSlot(s.producers[p].item, seen)])
      case LoadSequence(p) =>
        var AtSlot(item, pos) := s.producers[p];
        var diff := SlotOf(s, pos).sequence - pos;
        s.(producers := s.producers[p := if diff == 0 then AtCas(item, pos)
                                         else if diff < 0 then Idle  // full: return false
                                         else Loading(item)])
      case CasSucceeds(p) =>
        var AtCas(item, pos) := s.producers[p];
        s.(producers := s.producers[p := Writing(item, pos, 0)], writeCursor := pos + 1,
           claimed := s.claimed + [Claim(p, item)])
      case CasFails(p, seen) => s.(producers := s.producers[p := AtSlot(s.producers[p].item, seen)])
      case StoreWord(p) =>
        var Writing(item, pos, done) := s.producers[p];
        var slot := SlotOf(s, pos);
        s.(producers := s.producers[p := Writing(item, pos, done + 1)],
           slots := s.slots[pos % capacity := slot.(data := slot.data[done := item[done]])])
      case Publish(p) =>
        var Writing(item, pos, done) := s.producers[p];
        s.(producers := s.producers[p := Idle],  // return true
           slots := s.slots[pos % capacity := SlotOf(s, pos).(sequence := pos + 1)],
           returned := s.returned[p := s.returned[p] + [item]])
      case Check =>
        if SlotOf(s, s.readCursor).sequence != s.readCursor + 1 then s  // return false
        else s.(consumer := Reading([]))
      case CopyWord =>
        var got := s.consumer.got;
        s.(consumer := Reading(got + [SlotOf(s, s.readCursor).data[|got|]]))
      case Recycle =>
        s.(consumer := Recycled(s.consumer.got),
           slots := s.slots[s.readCursor % capacity :=
                              SlotOf(s, s.readCursor).(sequence := s.readCursor + capacity)])
      case Advance =>
        s.(consumer := Ready, readCursor := s.readCursor + 1, popped := s.popped + [s.consumer.got])
    }

    /** Runs a list of events; None when one of them is not enabled. */
    function Exec(es: seq<Event>): (r: Option<State>)
      requires WellFormed()
      ensures r.Some? ==> Shape(r.value)
    {
      if es == [] then Some(Init())
      else
        match Exec(es[..|es| - 1])
        case None => None
        case Some(s) =>
          var e := es[|es| - 1];
          if Enabled(s, e) then Some(Step(s, e)) else None
    }

    // ----- What the ring is for -----

    /** How many positions the consumer has handed back to producers. */
    function RecycledCount(s: State): nat {
      s.readCursor + if s.consumer.Recycled? then 1 else 0
    }

    /** The item at `pos` has been published: claimed, and its producer has left the slot. */
    predicate Published(s: State, pos: nat)
      requires Shape(s)
    {
      pos < s.writeCursor &&
      forall p :: 0 <= p < threads ==> !(s.producers[p].Writing? && s.producers[p].pos == pos)
    }

    /** The items producer `p` claimed, in position order. */
    static function ClaimedBy(claims: seq<Claim>, p: nat): seq<Item> {
      if claims == [] then []
      else
        var last := claims[|claims| - 1];
        ClaimedBy(claims[..|claims| - 1], p) + if last.owner == p then [last.item] else []
    }

    /** Nothing lost, duplicated, reordered or torn, and no slot is touched by two threads. */
    ghost predicate Safe(s: State)
      requires Shape(s)
    {
      // popped values are the claimed ones, whole, at positions 0, 1, 2, ...
      && s.readCursor <= s.writeCursor
      && (forall i :: 0 <= i < s.readCursor ==> s.popped[i] == s.claimed[i].item)
      // each producer's successful pushes keep their order
      && (forall p :: 0 <= p < threads ==>
            ClaimedBy(s.claimed, p) ==
            s.returned[p] + if s.producers[p].Writing? then [s.producers[p].item] else [])
      // a slot being written is neither read nor written by anyone else
      && (forall p :: 0 <= p < threads && s.producers[p].Writing? ==>
            && (s.consumer.Reading? ==> s.producers[p].pos % capacity != s.readCursor % capacity)
            && (forall q :: 0 <= q < threads && q != p && s.producers[q].Writing? ==>
                  s.producers[p].pos % capacity != s.producers[q].pos % capacity))
      // refusals are exact
      && (forall p :: 0 <= p < threads && s.producers[p].AtSlot? ==> PushRefusalExact(s, p))
      && (s.consumer.Ready? ==> PopRefusalExact(s))
    }

    /** A push that looks at its slot now returns false exactly when all `capacity`
        positions before the write cursor are claimed and not yet recycled; with an
        up-to-date position it goes on to claim exactly when the ring has room. */
    ghost predicate PushRefusalExact(s: State, p: nat)
      requires Shape(s) && p < threads && s.producers[p].AtSlot?
    {
      var pos, next := s.producers[p].pos, Step(s, LoadSequence(p)).producers[p];
      && (next.Idle? <==> pos == s.writeCursor == RecycledCount(s) + capacity)
      && (pos == s.writeCursor ==> (next.AtCas? <==> s.writeCursor < RecycledCount(s) + capacity))
    }

    /** A pop returns false exactly when the item at the read position is not published. */
    ghost predicate PopRefusalExact(s: State)
      requires Shape(s) && s.consumer.Ready?
    {
      Step(s, Check).consumer.Ready? <==> !Published(s, s.readCursor)
    }

    // ----- The inductive invariant -----

    ghost predicate SlotOk(s: State, pos: nat)
      requires Shape(s)
    {
      var slot := SlotOf(s, pos);
      && (pos >= s.writeCursor ==> slot.sequence == pos)
      && (pos < s.writeCursor ==>
            var c := s.claimed[pos];
            && c.owner < threads
            && if slot.sequence == pos
               then s.producers[c.owner].Writing? && s.producers[c.owner].pos == pos
               else slot.sequence == pos + 1 && slot.data == c.item)
    }

    ghost predicate ProducerOk(s: State, p: nat)
      requires Shape(s) && p < threads
    {
      match s.producers[p]
      case Idle => true
      case Loading(item) => |item| == width
      case AtSlot(item, pos) => |item| == width && pos <= s.writeCursor
      case AtCas(item, pos) => |item| == width && pos <= s.writeCursor && pos < RecycledCount(s) + capacity
      case Writing(item, pos, done) =>
        && |item| == width
        && RecycledCount(s) <= pos < s.writeCursor
        && s.claimed[pos] == Claim(p, item)
        && done <= width
        && SlotOf(s, pos).sequence == pos
        && SlotOf(s, pos).data[..done] == item[..done]
    }

    ghost predicate ConsumerOk(s: State)
      requires Shape(s)
    {
      match s.consumer
      case Ready => true
      case Reading(got) =>
        && s.readCursor < s.writeCursor
        && SlotOf(s, s.readCursor).sequence == s.readCursor + 1
        && got <= s.claimed[s.readCursor].item
      case Recycled(got) =>
        && s.readCursor < s.writeCursor
        && got == s.claimed[s.readCursor].item
    }

    ghost predicate HistoryOk(s: State)
      requires Shape(s)
    {
      && s.readCursor <= s.writeCursor
      && (forall i :: 0 <= i < s.readCursor ==> s.popped[i] == s.claimed[i].item)
      && (forall i :: 0 <= i < s.writeCursor ==> |s.claimed[i].item| == width)
      && (forall p :: 0 <= p < threads ==>
            ClaimedBy(s.claimed, p) ==
            s.returned[p] + if s.producers[p].Writing? then [s.producers[p].item] else [])
    }

    ghost predicate Inv(s: State) {
      && Shape(s)
      && RecycledCount(s) <= s.writeCursor <= RecycledCount(s) + capacity
      && (forall pos :: RecycledCount(s) <= pos < RecycledCount(s) + capacity ==> SlotOk(s, pos))
      && (forall p :: 0 <= p < threads ==> ProducerOk(s, p))
      && ConsumerOk(s)
      && HistoryOk(s)
    }

    lemma InitInv()
      requires WellFormed()
      ensures Inv(Init())
    {
      var s := Init();
      forall pos | 0 <= pos < capacity ensures SlotOk(s, pos) {
        SmallMod(pos, capacity);
      }
    }

    /** A step that changes no slot, no cursor and no claim keeps every slot fact, as
        long as the producers inside slots stay where they are. */
    lemma LocalStep(s: State, p: nat, local: Producer)
      requires Inv(s) && p < threads && !s.producers[p].Writing? && !local.Writing?
      requires ProducerOk(s, p) ==> ProducerOk(s.(producers := s.producers[p := local]), p)
      ensures Inv(s.(producers := s.producers[p := local]))
    {
      var t := s.(producers := s.producers[p := local]);
      forall pos | RecycledCount(s) <= pos < RecycledCount(s) + capacity ensures SlotOk(t, pos) {
        assert SlotOk(s, pos);
      }
      forall q | 0 <= q < threads ensures ProducerOk(t, q) {
        assert ProducerOk(s, q);
      }
    }

    /** What a producer learns from a slot's sequence. */
    lemma SequenceMeaning(s: State, pos: nat)
      requires Inv(s) && capacity >= 2 && pos <= s.writeCursor
      ensures SlotOf(s, pos).sequence == pos ==> pos < RecycledCount(s) + capacity
      ensures SlotOf(s, pos).sequence < pos <==> pos == s.writeCursor == RecycledCount(s) + capacity
      ensures pos == s.writeCursor < RecycledCount(s) + capacity ==> SlotOf(s, pos).sequence == pos
    {
      var lo := RecycledCount(s);
      var owner := OwnerInLap(lo, pos, capacity);
      assert SlotOk(s, owner) && SlotOf(s, owner) == SlotOf(s, pos);
      if owner < pos { SameSlotLapApart(owner, pos, capacity); }
      if pos < owner { SameSlotLapApart(pos, owner, capacity); }
    }

    lemma ClaimKeepsSlot(s: State, p: nat, pos: nat)
      requires Inv(s) && capacity >= 2 && Enabled(s, CasSucceeds(p))
      requires RecycledCount(s) <= pos < RecycledCount(s) + capacity
      ensures SlotOk(Step(s, CasSucceeds(p)), pos)
    {
      assert ProducerOk(s, p) && SlotOk(s, pos);
    }

    lemma ClaimStep(s: State, p: nat)
      requires Inv(s) && capacity >= 2 && Enabled(s, CasSucceeds(p))
      ensures Inv(Step(s, CasSucceeds(p)))
    {
      var t := Step(s, CasSucceeds(p));
      var AtCas(item, w) := s.producers[p];
      assert ProducerOk(s, p) && SlotOk(s, w);
      forall pos | RecycledCount(t) <= pos < RecycledCount(t) + capacity ensures SlotOk(t, pos) {
        ClaimKeepsSlot(s, p, pos);
      }
      forall q | 0 <= q < threads ensures ProducerOk(t, q) {
        assert ProducerOk(s, q);
      }
      assert t.claimed[..|t.claimed| - 1] == s.claimed;
    }

    lemma StoreStep(s: State, p: nat)
      requires Inv(s) && Enabled(s, StoreWord(p))
      ensures Inv(Step(s, StoreWord(p)))
    {
      var t := Step(s, StoreWord(p));
      var Writing(item, w, done) := s.producers[p];
      assert ProducerOk(s, p);
      LapIsInjective(RecycledCount(s), capacity);
      forall pos | RecycledCount(t) <= pos < RecycledCount(t) + capacity ensures SlotOk(t, pos) {
        assert SlotOk(s, pos);
      }
      forall q | 0 <= q < threads ensures ProducerOk(t, q) {
        assert ProducerOk(s, q);
      }
    }

    lemma PublishStep(s: State, p: nat)
      requires Inv(s) && Enabled(s, Publish(p))
      ensures Inv(Step(s, Publish(p)))
    {
      var t := Step(s, Publish(p));
      var Writing(item, w, done) := s.producers[p];
      assert ProducerOk(s, p);
      LapIsInjective(RecycledCount(s), capacity);
      forall pos | RecycledCount(t) <= pos < RecycledCount(t) + capacity ensures SlotOk(t, pos) {
        assert SlotOk(s, pos);
      }
      forall q | 0 <= q < threads ensures ProducerOk(t, q) {
        assert ProducerOk(s, q);
      }
    }

    lemma RecycleStep(s: State)
      requires Inv(s) && Enabled(s, Recycle)
      ensures Inv(Step(s, Recycle))
    {
      var t := Step(s, Recycle);
      var lo := s.readCursor;
      LapIsInjective(lo, capacity);
      AddLap(lo, capacity);
      assert SlotOk(s, lo);
      forall pos | lo + 1 <= pos < lo + 1 + capacity ensures SlotOk(t, pos) {
        if pos < lo + capacity { assert SlotOk(s, pos); }
      }
      forall q | 0 <= q < threads ensures ProducerOk(t, q) {
        assert ProducerOk(s, q);
      }
    }

    lemma ConsumerStep(s: State, e: Event)
      requires Inv(s) && Enabled(s, e) && (e.Check? || e.CopyWord? || e.Advance?)
      ensures Inv(Step(s, e))
    {
      var t := Step(s, e);
      assert SlotOk(s, RecycledCount(s));
      assert RecycledCount(t) == RecycledCount(s);
      forall pos | RecycledCount(t) <= pos < RecycledCount(t) + capacity ensures SlotOk(t, pos) {
        assert SlotOk(s, pos);
      }
      forall q | 0 <= q < threads ensures ProducerOk(t, q) {
        assert ProducerOk(s, q);
      }
    }

    lemma StepInv(s: State, e: Event)
      requires Inv(s) && capacity >= 2 && Enabled(s, e)
      ensures Inv(Step(s, e))
    {
      match e
      case Call(p, item) => LocalStep(s, p, Loading(item));
      case LoadCursor(p, seen) => LocalStep(s, p, AtSlot(s.producers[p].item, seen));
      case LoadSequence(p) =>
        assert ProducerOk(s, p);
        SequenceMeaning(s, s.producers[p].pos);
        LocalStep(s, p, Step(s, e).producers[p]);
      case CasSucceeds(p) => ClaimStep(s, p);
      case CasFails(p, seen) => LocalStep(s, p, AtSlot(s.producers[p].item, seen));
      case StoreWord(p) => StoreStep(s, p);
      case Publish(p) => PublishStep(s, p);
      case Check => ConsumerStep(s, e);
      case CopyWord => ConsumerStep(s, e);
      case Recycle => RecycleStep(s);
      case Advance => ConsumerStep(s, e);
    }

    lemma RefusalsAreExact(s: State)
      requires Inv(s) && capacity >= 2
      ensures forall p :: 0 <= p < threads && s.producers[p].AtSlot? ==> PushRefusalExact(s, p)
      ensures s.consumer.Ready? ==> PopRefusalExact(s)
    {
      forall p | 0 <= p < threads && s.producers[p].AtSlot? ensures PushRefusalExact(s, p) {
        assert ProducerOk(s, p);
        SequenceMeaning(s, s.producers[p].pos);
      }
      if s.consumer.Ready? {
        var r := s.readCursor;
        assert SlotOk(s, r);
        if r < s.writeCursor && SlotOf(s, r).sequence == r + 1 {
          forall p | 0 <= p < threads && s.producers[p].Writing? ensures s.producers[p].pos != r {
            assert ProducerOk(s, p);
          }
        }
      }
    }

    lemma WritersApart(s: State, p: nat, q: nat)
      requires Inv(s) && p < threads && q < threads && p != q
      requires s.producers[p].Writing? && s.producers[q].Writing?
      ensures s.producers[p].pos % capacity != s.producers[q].pos % capacity
    {
      assert ProducerOk(s, p) && ProducerOk(s, q);
      LapIsInjective(RecycledCount(s), capacity);
    }

    lemma ReaderApart(s: State, p: nat)
      requires Inv(s) && p < threads && s.producers[p].Writing? && s.consumer.Reading?
      ensures s.producers[p].pos % capacity != s.readCursor % capacity
    {
      assert ProducerOk(s, p) && SlotOk(s, s.readCursor);
      LapIsInjective(RecycledCount(s), capacity);
    }

    lemma InvIsSafe(s: State)
      requires Inv(s) && capacity >= 2
      ensures Safe(s)
    {
      forall p | 0 <= p < threads && s.producers[p].Writing? && s.consumer.Reading?
        ensures s.producers[p].pos % capacity != s.readCursor % capacity
      {
        ReaderApart(s, p);
      }
      forall p, q | 0 <= p < threads && 0 <= q < threads && q != p && s.producers[p].Writing? && s.producers[q].Writing?
        ensures s.producers[p].pos % capacity != s.producers[q].pos % capacity
      {
        WritersApart(s, p, q);
      }
      RefusalsAreExact(s);
    }

    /** Every run of a ring of at least two slots is safe, whatever the interleaving. */
    lemma {:induction false} RunsAreSafe(es: seq<Event>)
      requires capacity >= 2 && Exec(es).Some?
      ensures Inv(Exec(es).value) && Safe(Exec(es).value)
    {
      if es == [] {
        InitInv();
      } else {
        var before := es[..|es| - 1];
        RunsAreSafe(before);
        StepInv(Exec(before).value, es[|es| - 1]);
      }
      InvIsSafe(Exec(es).value);
    }

    /** Nothing is left behind: once no producer is inside a slot and a pop would be
        refused, the popped items are all the claimed ones, and every producer's
        successful pushes are among them in its own order. */
    lemma DrainedMeansEverythingPopped(es: seq<Event>)
      requires capacity >= 2 && Exec(es).Some?
      ensures
        var s := Exec(es).value;
        && s.consumer.Ready?
        && (forall p :: 0 <= p < threads ==> !s.producers[p].Writing?)
        && Step(s, Check).consumer.Ready?
        ==> && |s.popped| == |s.claimed|
            && (forall i :: 0 <= i < |s.popped| ==> s.popped[i] == s.claimed[i].item)
            && (forall p :: 0 <= p < threads ==> ClaimedBy(s.claimed, p) == s.returned[p])
    {
      RunsAreSafe(es);
    }

    // ----- What was called is what is pushed and popped -----

    /** The items producer `p` called `try_push` with. */
    static function CalledBy(es: seq<Event>, p: nat): seq<Item> {
      if es == [] then []
      else
        var e := es[|es| - 1];
        CalledBy(es[..|es| - 1], p) + if e.Call? && e.p == p then [e.item] else []
    }

    /** Which of those calls have claimed a position. */
    static function ClaimingCalls(es: seq<Event>, p: nat): seq<int> {
      if es == [] then []
      else
        var before, e := es[..|es| - 1], es[|es| - 1];
        ClaimingCalls(before, p) + if e.CasSucceeds? && e.p == p then [|CalledBy(before, p)| - 1] else []
    }

    /** A producer inside a call holds the item of its last call, which has claimed nothing
        as long as it does not write. */
    static ghost predicate HoldsLastCall(producer: Producer, called: seq<Item>, calls: seq<int>) {
      !producer.Idle? ==>
        && called != [] && producer.item == called[|called| - 1]
        && (!producer.Writing? ==> forall i :: 0 <= i < |calls| ==> calls[i] < |called| - 1)
    }

    static lemma ClaimAppends(claims: seq<Claim>, c: Claim, p: nat)
      ensures ClaimedBy(claims + [c], p)
           == if c.owner == p then ClaimedBy(claims, p) + [c.item] else ClaimedBy(claims, p)
    {
      assert (claims + [c])[..|claims + [c]| - 1] == claims;
      assert ClaimedBy(claims, p) + [] == ClaimedBy(claims, p);
    }

    /** A producer gets its item from a call and hands it to a claim, and nothing else
        touches either. */
    lemma ItemsStay(s: State, e: Event, p: nat)
      requires Shape(s) && Enabled(s, e) && p < threads
      ensures var t, before := Step(s, e), s.producers[p];
        var after, claimed := t.producers[p], ClaimedBy(t.claimed, p);
        if e.Call? && e.p == p then after == Loading(e.item) && claimed == ClaimedBy(s.claimed, p)
        else if e.CasSucceeds? && e.p == p then
          before.AtCas? && after.Writing? && after.item == before.item
          && claimed == ClaimedBy(s.claimed, p) + [before.item]
        else claimed == ClaimedBy(s.claimed, p)
             && (after.Idle? || (!before.Idle? && after.item == before.item && (after.Writing? <==> before.Writing?)))
    {
      if e.CasSucceeds? { ClaimAppends(s.claimed, Claim(e.p, s.producers[e.p].item), p); }
    }

    /** What a producer claims are the items of some of its calls, whole, each once and in
        the order of the calls. */
    lemma {:induction false} ClaimsAreCalls(es: seq<Event>, p: nat)
      requires WellFormed() && Exec(es).Some? && p < threads
      ensures var s := Exec(es).value;
        && Chosen(ClaimedBy(s.claimed, p), CalledBy(es, p), ClaimingCalls(es, p))
        && HoldsLastCall(s.producers[p], CalledBy(es, p), ClaimingCalls(es, p))
    {
      if es != [] {
        var before, e := es[..|es| - 1], es[|es| - 1];
        ClaimsAreCalls(before, p);
        var s, called, calls := Exec(before).value, CalledBy(before, p), ClaimingCalls(before, p);
        ItemsStay(s, e, p);
        assert called + [] == called && calls + [] == calls;
        if e.Call? && e.p == p {
          ChosenFromMore(ClaimedBy(s.claimed, p), called, calls, e.item);
        } else if e.CasSucceeds? && e.p == p {
          ChooseLast(ClaimedBy(s.claimed, p), called, calls);
        }
      }
    }

    lemma {:induction false} OwnersAreProducers(es: seq<Event>, i: nat)
      requires WellFormed() && Exec(es).Some? && i < |Exec(es).value.claimed|
      ensures Exec(es).value.claimed[i].owner < threads
    {
      var before := es[..|es| - 1];
      if es != [] && i < |Exec(before).value.claimed| {
        OwnersAreProducers(before, i);
      }
    }

    /** Which of its owner's calls claimed position `i`. */
    static function CallOfPosition(es: seq<Event>, claims: seq<Claim>, i: nat): int
      requires i < |claims|
    {
      var n := |ClaimedBy(claims[..i], claims[i].owner)|;
      if n < |ClaimingCalls(es, claims[i].owner)| then ClaimingCalls(es, claims[i].owner)[n] else -1
    }

    /** `item` is what the call behind position `i` was made with. */
    predicate FromCall(es: seq<Event>, claims: seq<Claim>, i: nat, item: Item) {
      && i < |claims| && claims[i].owner < threads
      && 0 <= CallOfPosition(es, claims, i) < |CalledBy(es, claims[i].owner)|
      && item == CalledBy(es, claims[i].owner)[CallOfPosition(es, claims, i)]
    }

    lemma PositionIsFromCall(es: seq<Event>, i: nat)
      requires WellFormed() && Exec(es).Some? && i < |Exec(es).value.claimed|
      ensures var claims := Exec(es).value.claimed;
        FromCall(es, claims, i, claims[i].item)
    {
      var claims := Exec(es).value.claimed;
      var p := claims[i].owner;
      OwnersAreProducers(es, i);
      ClaimsAreCalls(es, p);
      PushNumber(claims, p, |ClaimedBy(claims[..i], p)|, i, claims);
    }

    /** The pushes that returned true, and the popped items, are the items of calls. */
    lemma PopsAreCalls(es: seq<Event>)
      requires capacity >= 2 && Exec(es).Some?
      ensures var s := Exec(es).value;
        && (forall p :: 0 <= p < threads ==>
              |s.returned[p]| <= |ClaimingCalls(es, p)|
              && Chosen(s.returned[p], CalledBy(es, p), ClaimingCalls(es, p)[..|s.returned[p]|]))
        && (forall i :: 0 <= i < |s.popped| ==> FromCall(es, s.claimed, i, s.popped[i]))
    {
      var s := Exec(es).value;
      RunsAreSafe(es);
      forall p | 0 <= p < threads
        ensures |s.returned[p]| <= |ClaimingCalls(es, p)|
        ensures Chosen(s.returned[p], CalledBy(es, p), ClaimingCalls(es, p)[..|s.returned[p]|])
      {
        ClaimsAreCalls(es, p);
        ChosenPrefix(ClaimedBy(s.claimed, p), CalledBy(es, p), ClaimingCalls(es, p), |s.returned[p]|);
        assert ClaimedBy(s.claimed, p)[..|s.returned[p]|] == s.returned[p];
      }
      forall i | 0 <= i < |s.popped| ensures FromCall(es, s.claimed, i, s.popped[i]) {
        PositionIsFromCall(es, i);
      }
    }

    // ----- Every call is answered -----

    /** The producer is about to find the ring full at an up-to-date position. */
    predicate FindsFull(s: State, p: nat)
      requires Shape(s) && p < threads
    {
      s.producers[p].AtSlot? && s.producers[p].pos == s.writeCursor == RecycledCount(s) + capacity
    }

    /** How many slot loads of producer `p` have found the ring full. */
    function FullLoads(es: seq<Event>, p: nat): nat
      requires WellFormed() && p < threads
    {
      if es == [] then 0
      else
        var before, e := es[..|es| - 1], es[|es| - 1];
        var r := Exec(before);
        FullLoads(before, p) + if e == LoadSequence(p) && r.Some? && FindsFull(r.value, p) then 1 else 0
    }

    static function Checks(es: seq<Event>): nat {
      if es == [] then 0 else Checks(es[..|es| - 1]) + if es[|es| - 1].Check? then 1 else 0
    }

    /** How many looks of the consumer have found the item at the read position unpublished. */
    function EmptyChecks(es: seq<Event>): nat
      requires WellFormed()
    {
      if es == [] then 0
      else
        var before := es[..|es| - 1];
        var r := Exec(before);
        EmptyChecks(before) + if es[|es| - 1].Check? && r.Some? && !Published(r.value, r.value.readCursor) then 1 else 0
    }

    static function InCall(producer: Producer): nat { if producer.Idle? then 0 else 1 }

    static function InPop(consumer: Consumer): nat { if consumer.Ready? then 0 else 1 }

    lemma PushStepAnswers(s: State, e: Event, p: nat)
      requires Inv(s) && capacity >= 2 && Enabled(s, e) && p < threads
      ensures var t := Step(s, e);
        InCall(t.producers[p]) + |t.returned[p]| + (if e == LoadSequence(p) && FindsFull(s, p) then 1 else 0)
        == InCall(s.producers[p]) + |s.returned[p]| + (if e.Call? && e.p == p then 1 else 0)
    {
      if e == LoadSequence(p) {
        RefusalsAreExact(s);
        assert PushRefusalExact(s, p);
      }
    }

    /** Every call of `try_push` has returned true, has returned false because its slot load
        found the ring full, or is still under way; a failed compare-exchange ends none. */
    lemma {:induction false} PushesAreAnswered(es: seq<Event>, p: nat)
      requires capacity >= 2 && Exec(es).Some? && p < threads
      ensures var s := Exec(es).value;
        |CalledBy(es, p)| == |s.returned[p]| + FullLoads(es, p) + InCall(s.producers[p])
    {
      if es != [] {
        var before := es[..|es| - 1];
        PushesAreAnswered(before, p);
        RunsAreSafe(before);
        PushStepAnswers(Exec(before).value, es[|es| - 1], p);
      }
    }

    lemma PopStepAnswers(s: State, e: Event)
      requires Inv(s) && capacity >= 2 && Enabled(s, e)
      ensures var t := Step(s, e);
        InPop(t.consumer) + |t.popped| + (if e.Check? && !Published(s, s.readCursor) then 1 else 0)
        == InPop(s.consumer) + |s.popped| + (if e.Check? then 1 else 0)
    {
      RefusalsAreExact(s);
    }

    /** Every call of `try_pop` has returned an item, has returned false because none was
        published at the read position, or is still under way. */
    lemma {:induction false} PopsAreAnswered(es: seq<Event>)
      requires capacity >= 2 && Exec(es).Some?
      ensures var s := Exec(es).value;
        Checks(es) == |s.popped| + EmptyChecks(es) + InPop(s.consumer)
    {
      if es != [] {
        var before := es[..|es| - 1];
        PopsAreAnswered(before);
        RunsAreSafe(before);
        PopStepAnswers(Exec(before).value, es[|es| - 1]);
      }
    }

    // ----- No thread waits for another -----

    /** An event of producer `p`. */
    static predicate IsOf(e: Event, p: nat) {
      match e
      case Call(q, _) => p == q
      case LoadCursor(q, _) => p == q
      case LoadSequence(q) => p == q
      case CasSucceeds(q) => p == q
      case CasFails(q, _) => p == q
      case StoreWord(q) => p == q
      case Publish(q) => p == q
      case _ => false
    }

    static predicate AllOf(es: seq<Event>, p: nat) { forall i :: 0 <= i < |es| ==> IsOf(es[i], p) }

    lemma Then(es: seq<Event>, more: seq<Event>, e: Event)
      requires WellFormed() && Exec(es + more).Some? && Enabled(Exec(es + more).value, e)
      ensures Exec(es + (more + [e])) == Some(Step(Exec(es + more).value, e))
    {
      var all := es + (more + [e]);
      assert all[..|all| - 1] == es + more;
    }

    /** Storing the rest of the words. */
    lemma {:induction false} SoloFill(es: seq<Event>, more: seq<Event>, p: nat) returns (more': seq<Event>)
      requires capacity >= 2 && p < threads && AllOf(more, p) && Exec(es + more).Some?
      requires Exec(es + more).value.producers[p].Writing?
      ensures var s := Exec(es + more).value;
        var Writing(item, pos, done) := s.producers[p];
        && AllOf(more', p) && |more'| <= |more| + width - done
        && Exec(es + more').Some? && Exec(es + more').value.producers[p] == Writing(item, pos, width)
        && Exec(es + more').value.returned == s.returned
      decreases width - Exec(es + more).value.producers[p].done
    {
      RunsAreSafe(es + more);
      var s := Exec(es + more).value;
      assert ProducerOk(s, p);
      more' := more;
      if s.producers[p].done < width {
        Then(es, more, StoreWord(p));
        more' := SoloFill(es, more + [StoreWord(p)], p);
      }
    }

    /** Calling, and loading the cursor as it is. */
    lemma SoloApproach(es: seq<Event>, p: nat, item: Item) returns (more: seq<Event>)
      requires WellFormed() && Exec(es).Some? && p < threads && |item| == width
      requires Exec(es).value.producers[p].Idle?
      ensures AllOf(more, p) && |more| == 2 && Exec(es + more).Some?
      ensures var s, t := Exec(es).value, Exec(es + more).value;
        && t == s.(producers := t.producers)
        && t.producers[p] == AtSlot(item, s.writeCursor)
    {
      var s := Exec(es).value;
      assert es + [] == es;
      Then(es, [], Call(p, item));
      more := [] + [Call(p, item)];
      Then(es, more, LoadCursor(p, s.writeCursor));
      more := more + [LoadCursor(p, s.writeCursor)];
    }

    /** Loading the slot's sequence at an up-to-date position. */
    lemma SoloLook(es: seq<Event>, more: seq<Event>, p: nat) returns (more': seq<Event>)
      requires capacity >= 2 && p < threads && AllOf(more, p) && Exec(es + more).Some?
      requires var s := Exec(es + more).value;
        s.producers[p].AtSlot? && s.producers[p].pos == s.writeCursor
      ensures AllOf(more', p) && |more'| == |more| + 1 && Exec(es + more').Some?
      ensures var s, t := Exec(es + more).value, Exec(es + more').value;
        && t == s.(producers := t.producers)
        && t.producers[p] == if s.writeCursor < RecycledCount(s) + capacity
                             then AtCas(s.producers[p].item, s.writeCursor) else Idle
    {
      RunsAreSafe(es + more);
      SequenceMeaning(Exec(es + more).value, Exec(es + more).value.writeCursor);
      Then(es, more, LoadSequence(p));
      more' := more + [LoadSequence(p)];
    }

    /** Claiming, storing and publishing. */
    lemma SoloClaim(es: seq<Event>, more: seq<Event>, p: nat) returns (more': seq<Event>)
      requires capacity >= 2 && p < threads && AllOf(more, p) && Exec(es + more).Some?
      requires var s := Exec(es + more).value;
        s.producers[p].AtCas? && s.producers[p].pos == s.writeCursor
      ensures AllOf(more', p) && |more'| <= |more| + width + 2 && Exec(es + more').Some?
      ensures var s, t := Exec(es + more).value, Exec(es + more').value;
        t.producers[p].Idle? && t.returned[p] == s.returned[p] + [s.producers[p].item]
    {
      Then(es, more, CasSucceeds(p));
      more' := SoloFill(es, more + [CasSucceeds(p)], p);
      Then(es, more', Publish(p));
      more' := more' + [Publish(p)];
    }

    /** Whatever the other threads were in the middle of, a push of a producer that now runs
        alone ends within width + 5 steps: true if the ring has room, else false. */
    lemma SoloPush(es: seq<Event>, p: nat, item: Item) returns (more: seq<Event>)
      requires capacity >= 2 && Exec(es).Some? && p < threads && |item| == width
      requires Exec(es).value.producers[p].Idle?
      ensures AllOf(more, p) && |more| <= width + 5 && Exec(es + more).Some?
      ensures var s, t := Exec(es).value, Exec(es + more).value;
        var room := s.writeCursor < RecycledCount(s) + capacity;
        t.producers[p].Idle? && t.returned[p] == s.returned[p] + if room then [item] else []
    {
      more := SoloApproach(es, p, item);
      more := SoloLook(es, more, p);
      if Exec(es + more).value.producers[p].AtCas? {
        more := SoloClaim(es, more, p);
      }
    }

    /** Copying the rest of the words. */
    lemma {:induction false} SoloCopy(es: seq<Event>, more: seq<Event>) returns (more': seq<Event>)
      requires capacity >= 2 && Exec(es + more).Some? && Exec(es + more).value.consumer.Reading?
      requires |Exec(es + more).value.consumer.got| <= width
      ensures |more'| == |more| + width - |Exec(es + more).value.consumer.got|
      ensures var s := Exec(es + more).value;
        && Exec(es + more').Some? && Exec(es + more').value.consumer.Reading?
        && |Exec(es + more').value.consumer.got| == width
        && Exec(es + more').value.popped == s.popped
      decreases width - |Exec(es + more).value.consumer.got|
    {
      more' := more;
      if |Exec(es + more).value.consumer.got| < width {
        Then(es, more, CopyWord);
        more' := SoloCopy(es, more + [CopyWord]);
      }
    }

    /** A pop that runs alone ends within width + 3 steps: with the item at the read position
        if it is published, else with false. */
    lemma SoloPop(es: seq<Event>) returns (more: seq<Event>)
      requires capacity >= 2 && Exec(es).Some? && Exec(es).value.consumer.Ready?
      ensures |more| <= width + 3 && Exec(es + more).Some?
      ensures var s, t := Exec(es).value, Exec(es + more).value;
        && t.consumer.Ready?
        && |t.popped| == |s.popped| + if Published(s, s.readCursor) then 1 else 0
    {
      var s := Exec(es).value;
      assert es + [] == es;
      RunsAreSafe(es);
      Then(es, [], Check);
      more := [] + [Check];
      if Published(s, s.readCursor) {
        more := SoloCopy(es, more);
        Then(es, more, Recycle);
        Then(es, more + [Recycle], Advance);
        more := more + [Recycle] + [Advance];
      }
    }

    // ----- Real-time order across producers -----

    static lemma {:induction false} ClaimedByPrefix(claims: seq<Claim>, p: nat, n: nat)
      requires n <= |claims|
      ensures ClaimedBy(claims[..n], p) <= ClaimedBy(claims, p)
    {
      if n < |claims| {
        ClaimedByPrefix(claims[..|claims| - 1], p, n);
        assert claims[..|claims| - 1][..n] == claims[..n];
      } else {
        assert claims[..n] == claims;
      }
    }

    /** Position `pos` holds the push of producer `p` that is preceded by `n` of its own. */
    static predicate IsPush(claims: seq<Claim>, p: nat, n: nat, pos: nat) {
      pos < |claims| && claims[pos].owner == p && |ClaimedBy(claims[..pos], p)| == n
    }

    /** A push among the first claims is numbered below their count, and only such a push is. */
    static lemma PushNumber(claims: seq<Claim>, p: nat, n: nat, pos: nat, early: seq<Claim>)
      requires IsPush(claims, p, n, pos) && early <= claims
      ensures pos < |early| <==> n < |ClaimedBy(early, p)|
      ensures pos < |early| ==> ClaimedBy(early, p)[n] == claims[pos].item
    {
      if pos < |early| {
        assert early[..pos] == claims[..pos];
        assert early[..pos + 1][..pos] == early[..pos];
        ClaimedByPrefix(early, p, pos + 1);
      } else {
        assert claims[..pos][..|early|] == early;
        ClaimedByPrefix(claims[..pos], p, |early|);
      }
    }

    lemma {:induction false} ClaimsGrow(es: seq<Event>, more: seq<Event>)
      requires WellFormed() && Exec(es + more).Some?
      ensures Exec(es).Some? && Exec(es).value.claimed <= Exec(es + more).value.claimed
    {
      if more == [] {
        assert es + more == es;
      } else {
        var n := |more| - 1;
        assert (es + more)[..|es + more| - 1] == es + more[..n];
        LastStep(es + more, es + more[..n]);
        ClaimsGrow(es, more[..n]);
      }
    }

    lemma LastStep(es: seq<Event>, before: seq<Event>)
      requires WellFormed() && es != [] && before == es[..|es| - 1] && Exec(es).Some?
      ensures Exec(before).Some? && Exec(before).value.claimed <= Exec(es).value.claimed
    {
    }

    /** A push that has returned lies before every push called later, by any producer: `q` is
        between calls after `es`, so whatever it pushes beyond what it has pushed so far comes
        after everything pushed by then.  Popping keeps that order. */
    lemma RealTimeOrder(es: seq<Event>, more: seq<Event>, p: nat, m: nat, i: nat, q: nat, n: nat, j: nat)
      requires capacity >= 2 && Exec(es + more).Some? && Exec(es).Some?
      requires var s, t := Exec(es).value, Exec(es + more).value;
        && p < threads && q < threads && s.producers[q].Idle?
        && m < |s.returned[p]| && |s.returned[q]| <= n
        && IsPush(t.claimed, p, m, i) && IsPush(t.claimed, q, n, j)
      ensures var s, t := Exec(es).value, Exec(es + more).value;
        && i < j
        && t.claimed[i].item == s.returned[p][m]
        && (j < |t.popped| ==> t.popped[i] == s.returned[p][m] && t.popped[j] == t.claimed[j].item)
    {
      var s, t := Exec(es).value, Exec(es + more).value;
      RunsAreSafe(es);
      RunsAreSafe(es + more);
      ClaimsGrow(es, more);
      PushNumber(t.claimed, p, m, i, s.claimed);
      PushNumber(t.claimed, q, n, j, s.claimed);
    }
  }

  /** The whole promise of a ring of `capacity` slots: every run is safe. */
  ghost predicate AlwaysSafe(capacity: nat)
    requires capacity >= 1
  {
    forall width: nat, threads: nat, es: seq<Event> ::
      var ring := Ring(capacity, width, threads);
      ring.Exec(es).Some? ==> ring.Safe(ring.Exec(es).value)
  }

  /** A ring of one slot, one payload word and one producer. */
  const LONE := Ring(1, 1, 1)

  /** A run that ends in `s`, and one more event. */
  lemma OneStep(es: seq<Event>, s: State, e: Event, t: State) returns (es': seq<Event>)
    requires LONE.Exec(es) == Some(s)
    requires LONE.Enabled(s, e) && LONE.Step(s, e) == t
    ensures LONE.Exec(es') == Some(t)
  {
    es' := es + [e];
    assert es'[..|es'| - 1] == es;
  }

  /** Call, load the cursor, and find that the slot says `writeCursor`. */
  lemma LoneApproach(es: seq<Event>, s: State, item: Item) returns (es': seq<Event>)
    requires |item| == 1 && LONE.Exec(es) == Some(s)
    requires s.producers == [Idle] && s.slots[0].sequence == s.writeCursor
    ensures LONE.Exec(es') == Some(s.(producers := [AtCas(item, s.writeCursor)]))
  {
    var s1, s2 := s.(producers := [Loading(item)]), s.(producers := [AtSlot(item, s.writeCursor)]);
    es' := OneStep(es, s, Call(0, item), s1);
    es' := OneStep(es', s1, LoadCursor(0, s.writeCursor), s2);
    es' := OneStep(es', s2, LoadSequence(0), s.(producers := [AtCas(item, s.writeCursor)]));
  }

  lemma LoneClaim(es: seq<Event>, s: State) returns (es': seq<Event>)
    requires LONE.Exec(es) == Some(s)
    requires s.producers[0].AtCas? && s.producers[0].pos == s.writeCursor
    ensures var item := s.producers[0].item;
      LONE.Exec(es') == Some(s.(producers := [Writing(item, s.writeCursor, 0)], writeCursor := s.writeCursor + 1,
                                claimed := s.claimed + [Claim(0, item)]))
  {
    var item := s.producers[0].item;
    es' := OneStep(es, s, CasSucceeds(0),
                   s.(producers := [Writing(item, s.writeCursor, 0)], writeCursor := s.writeCursor + 1,
                      claimed := s.claimed + [Claim(0, item)]));
  }

  lemma LoneStore(es: seq<Event>, s: State, item: Item, w: nat) returns (es': seq<Event>)
    requires |item| == 1 && LONE.Exec(es) == Some(s) && s.producers == [Writing(item, w, 0)]
    ensures LONE.Exec(es') == Some(s.(producers := [Writing(item, w, 1)], slots := [Slot(item, s.slots[0].sequence)]))
  {
    assert s.slots[0].data[0 := item[0]] == item;
    es' := OneStep(es, s, StoreWord(0),
                   s.(producers := [Writing(item, w, 1)], slots := [Slot(item, s.slots[0].sequence)]));
  }

  lemma LonePublish(es: seq<Event>, s: State, item: Item, w: nat) returns (es': seq<Event>)
    requires LONE.Exec(es) == Some(s) && s.producers == [Writing(item, w, 1)]
    ensures LONE.Exec(es') == Some(s.(slots := [Slot(s.slots[0].data, w + 1)], returned := [s.returned[0] + [item]],
                                      producers := [Idle]))
  {
    es' := OneStep(es, s, Publish(0), s.(slots := [Slot(s.slots[0].data, w + 1)],
                                         returned := [s.returned[0] + [item]], producers := [Idle]));
  }

  /** On a one-slot ring a lone push goes through whenever the slot says `pos`, even when
      the slot holds an item nobody has popped. */
  lemma LonePush(es: seq<Event>, s: State, item: Item) returns (es': seq<Event>)
    requires |item| == 1 && LONE.Exec(es) == Some(s)
    requires s.producers == [Idle] && s.slots[0].sequence == s.writeCursor
    ensures LONE.Exec(es') ==
            Some(s.(slots := [Slot(item, s.writeCursor + 1)], writeCursor := s.writeCursor + 1,
                    claimed := s.claimed + [Claim(0, item)], returned := [s.returned[0] + [item]],
                    producers := [Idle]))
  {
    var w, claimed := s.writeCursor, s.claimed + [Claim(0, item)];
    es' := LoneApproach(es, s, item);
    es' := LoneClaim(es', s.(producers := [AtCas(item, w)]));
    es' := LoneFill(es', s.(producers := [Writing(item, w, 0)], writeCursor := w + 1, claimed := claimed), item, w);
  }

  lemma LoneFill(es: seq<Event>, s: State, item: Item, w: nat) returns (es': seq<Event>)
    requires |item| == 1 && LONE.Exec(es) == Some(s) && s.producers == [Writing(item, w, 0)]
    ensures LONE.Exec(es')
         == Some(s.(slots := [Slot(item, w + 1)], returned := [s.returned[0] + [item]], producers := [Idle]))
  {
    var filled := Slot(item, s.slots[0].sequence);
    es' := LoneStore(es, s, item, w);
    es' := LonePublish(es', s.(producers := [Writing(item, w, 1)], slots := [filled]), item, w);
  }

  lemma OverwrittenIsUnsafe(s: State)
    requires LONE.Shape(s) && s.consumer.Ready? && s.producers == [Idle]
    requires s.readCursor < s.writeCursor && s.slots[0].sequence != s.readCursor + 1
    ensures !LONE.Safe(s)
  {
    assert LONE.Published(s, s.readCursor);
    assert !LONE.PopRefusalExact(s);
  }

  /** With one slot "published at 0" and "free for 1" are the same number: a second push
      overwrites the first item and the consumer never sees it. */
  lemma OneSlotLosesItems() returns (es: seq<Event>)
    ensures LONE.Exec(es).Some? && !LONE.Safe(LONE.Exec(es).value)
    ensures var s := LONE.Exec(es).value;
            s.returned == [[[7], [8]]] && s.slots[0].data == [8] && s.popped == []
  {
    var s := LONE.Init();
    es := LonePush([], s, [7]);
    var t := State([Slot([7], 1)], 1, 0, [Idle], Ready, [Claim(0, [7])], [], [[[7]]]);
    assert s.claimed + [Claim(0, [7])] == [Claim(0, [7])] && s.returned[0] + [[7]] == [[7]];
    es := LonePush(es, t, [8]);
    assert [[7]] + [[8]] == [[7], [8]];
    OverwrittenIsUnsafe(LONE.Exec(es).value);
  }

  /** The protocol works exactly for rings of two or more slots; the source's
      assertions also admit one. */
  lemma SafeIffTwoSlots(capacity: nat)
    requires capacity >= 1
    ensures AlwaysSafe(capacity) <==> capacity >= 2
  {
    if capacity == 1 {
      var es := OneSlotLosesItems();
    } else {
      forall width: nat, threads: nat, es: seq<Event> | Ring(capacity, width, threads).Exec(es).Some?
        ensures Ring(capacity, width, threads).Safe(Ring(capacity, width, threads).Exec(es).value)
      {
        Ring(capacity, width, threads).RunsAreSafe(es);
      }
    }
  }
}
