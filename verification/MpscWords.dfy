/** `MpscRingBuffer` with the 64-bit counters the machine has.  It takes the branches of the
    unbounded ring as long as no producer holds a position that is too old. */
module MpscWords {
  import opened MpscRing
  import opened Sequences
  import opened SpscRing
  import WindowArith
  import opened WordArith
  import opened Wrappers

  const HALF: nat := 0x8000_0000_0000_0000

  /** The difference of two words as a signed number, in two's complement. */
  function SignedDiff(seq_: nat, pos: nat): int {
    var d := Wrap(seq_ - pos);
    if d < HALF then d else d - WORD
  }

  /** It is the difference of the counters while that fits a signed word. */
  lemma DiffOfWords(a: nat, pos: nat)
    requires pos <= a + HALF && a < pos + HALF
    ensures SignedDiff(Wrap(a), Wrap(pos)) == a - pos
  {
  }

  /** Of a slot less than 2^64 ahead, the sign is right exactly as long as that is so. */
  lemma SignIsRightIff(a: nat, pos: nat)
    requires pos <= a < pos + WORD
    ensures (SignedDiff(Wrap(a), Wrap(pos)) < 0 <==> a < pos) <==> a - pos < HALF
  {
  }

  // ----- The steps on words -----

  ghost predicate WordShape(r: Ring, s: State) {
    && ValidCapacity(r.capacity)
    && |s.slots| == r.capacity
    && (forall i :: 0 <= i < |s.slots| ==> |s.slots[i].data| == r.width)
    && |s.producers| == |s.returned| == r.threads
  }

  lemma MaskedInRange(pos: nat, capacity: nat)
    requires ValidCapacity(capacity)
    ensures SlotIndex(pos, capacity) < capacity
  {
    PowerOfTwoCheck(capacity);
    var k: nat :| capacity == Pow2(k);
    MaskIsMod(pos, k);
  }

  /** `slots_[pos & kMask]`. */
  ghost function WordSlot(r: Ring, s: State, pos: nat): (slot: Slot)
    requires WordShape(r, s)
    ensures |slot.data| == r.width
  {
    MaskedInRange(pos, r.capacity);
    s.slots[SlotIndex(pos, r.capacity)]
  }

  ghost function WithSlot(r: Ring, s: State, pos: nat, slot: Slot): State
    requires WordShape(r, s)
  {
    MaskedInRange(pos, r.capacity);
    s.(slots := s.slots[SlotIndex(pos, r.capacity) := slot])
  }

  ghost predicate WordEnabled(r: Ring, s: State, e: Event)
    requires WordShape(r, s)
  {
    match e
    case Call(p, item) => p < r.threads && s.producers[p].Idle? && |item| == r.width
    case LoadCursor(p, seen) => p < r.threads && s.producers[p].Loading? && seen <= |s.claimed|
    case LoadSequence(p) => p < r.threads && s.producers[p].AtSlot?
    case CasSucceeds(p) => p < r.threads && s.producers[p].AtCas? && s.producers[p].pos == s.writeCursor
    case CasFails(p, seen) => p < r.threads && s.producers[p].AtCas? && seen <= |s.claimed|
    case StoreWord(p) =>
      p < r.threads && s.producers[p].Writing? && s.producers[p].done < r.width <= |s.producers[p].item|
    case Publish(p) => p < r.threads && s.producers[p].Writing? && s.producers[p].done == r.width
    case Check => s.consumer.Ready?
    case CopyWord => s.consumer.Reading? && |s.consumer.got| < r.width
    case Recycle => s.consumer.Reading? && |s.consumer.got| == r.width
    case Advance => s.consumer.Recycled?
  }

  /** A cursor load returns the word the cursor was after `seen` increments. */
  ghost function WordStep(r: Ring, s: State, e: Event): State
    requires WordShape(r, s) && WordEnabled(r, s, e)
  {
    match e
    case Call(p, item) => s.(producers := s.producers[p := Loading(item)])
    case LoadCursor(p, seen) => s.(producers := s.producers[p := AtSlot(s.producers[p].item, Wrap(seen))])
    case LoadSequence(p) =>
      var AtSlot(item, pos) := s.producers[p];
      var diff := SignedDiff(WordSlot(r, s, pos).sequence, pos);
      s.(producers := s.producers[p := if diff == 0 then AtCas(item, pos)
                                       else if diff < 0 then Idle
                                       else Loading(item)])
    case CasSucceeds(p) =>
      var AtCas(item, pos) := s.producers[p];
      s.(producers := s.producers[p := Writing(item, pos, 0)], writeCursor := Wrap(pos + 1),
         claimed := s.claimed + [Claim(p, item)])
    case CasFails(p, seen) => s.(producers := s.producers[p := AtSlot(s.producers[p].item, Wrap(seen))])
    case StoreWord(p) =>
      var Writing(item, pos, done) := s.producers[p];
      var slot := WordSlot(r, s, pos);
      WithSlot(r, s, pos, slot.(data := slot.data[done := item[done]]))
      .(producers := s.producers[p := Writing(item, pos, done + 1)])
    case Publish(p) =>
      var Writing(item, pos, done) := s.producers[p];
      WithSlot(r, s, pos, WordSlot(r, s, pos).(sequence := Wrap(pos + 1)))
      .(producers := s.producers[p := Idle], returned := s.returned[p := s.returned[p] + [item]])
    case Check =>
      if WordSlot(r, s, s.readCursor).sequence != Wrap(s.readCursor + 1) then s
      else s.(consumer := Reading([]))
    case CopyWord =>
      var got := s.consumer.got;
      s.(consumer := Reading(got + [WordSlot(r, s, s.readCursor).data[|got|]]))
    case Recycle =>
      WithSlot(r, s, s.readCursor, WordSlot(r, s, s.readCursor).(sequence := Wrap(s.readCursor + r.capacity)))
      .(consumer := Recycled(s.consumer.got))
    case Advance =>
      s.(consumer := Ready, readCursor := Wrap(s.readCursor + 1), popped := s.popped + [s.consumer.got])
  }

  ghost function WordExec(r: Ring, es: seq<Event>): Option<State>
    requires ValidCapacity(r.capacity)
  {
    if es == [] then Some(r.Init())
    else
      match WordExec(r, es[..|es| - 1])
      case None => None
      case Some(s) =>
        var e := es[|es| - 1];
        if WordShape(r, s) && WordEnabled(r, s, e) then Some(WordStep(r, s, e)) else None
  }

  // ----- What the words of a state are -----

  function SlotWords(slot: Slot): Slot { slot.(sequence := Wrap(slot.sequence)) }

  function ProducerWords(p: Producer): Producer {
    match p
    case Idle => Idle
    case Loading(item) => Loading(item)
    case AtSlot(item, pos) => AtSlot(item, Wrap(pos))
    case AtCas(item, pos) => AtCas(item, Wrap(pos))
    case Writing(item, pos, done) => Writing(item, Wrap(pos), done)
  }

  function Words(s: State): State {
    s.(slots := Map(SlotWords, s.slots), producers := Map(ProducerWords, s.producers),
       writeCursor := Wrap(s.writeCursor), readCursor := Wrap(s.readCursor))
  }

  /** The step does not look at a slot 2^63 or more ahead of the position it was loaded for,
      and does not compare a position with a write cursor 2^64 or more ahead. */
  predicate InReach(r: Ring, s: State, e: Event)
    requires r.Shape(s)
  {
    match e
    case LoadSequence(p) =>
      p < r.threads && s.producers[p].AtSlot? ==>
        r.SlotOf(s, s.producers[p].pos).sequence < s.producers[p].pos + HALF
    case CasSucceeds(p) =>
      p < r.threads && s.producers[p].AtCas? ==> s.writeCursor < s.producers[p].pos + WORD
    case _ => true
  }

  /** No step of the run does. */
  ghost predicate StaysInReach(r: Ring, es: seq<Event>)
    requires r.WellFormed()
  {
    if es == [] then true
    else
      var before := es[..|es| - 1];
      StaysInReach(r, before) && (r.Exec(before).Some? ==> InReach(r, r.Exec(before).value, es[|es| - 1]))
  }

  // ----- Step by step the two agree -----

  lemma ShapeOfWords(r: Ring, s: State)
    requires r.Shape(s) && ValidCapacity(r.capacity)
    ensures WordShape(r, Words(s))
  {
  }

  lemma SlotAgrees(r: Ring, s: State, pos: nat)
    requires r.Shape(s) && ValidCapacity(r.capacity)
    ensures WordShape(r, Words(s)) && WordSlot(r, Words(s), Wrap(pos)) == SlotWords(r.SlotOf(s, pos))
  {
    ShapeOfWords(r, s);
    SlotOfCount(pos, r.capacity);
  }

  lemma WithSlotAgrees(r: Ring, s: State, pos: nat, slot: Slot)
    requires r.Shape(s) && ValidCapacity(r.capacity)
    ensures WordShape(r, Words(s))
    ensures WithSlot(r, Words(s), Wrap(pos), SlotWords(slot)) == Words(s.(slots := s.slots[pos % r.capacity := slot]))
  {
    ShapeOfWords(r, s);
    SlotOfCount(pos, r.capacity);
    MapUpdate(SlotWords, s.slots, pos % r.capacity, slot);
  }

  /** How far a slot can be from a position that was loaded from the write cursor. */
  lemma SlotIsNear(r: Ring, s: State, pos: nat)
    requires r.Inv(s) && r.capacity >= 2 && pos <= s.writeCursor
    ensures pos <= r.SlotOf(s, pos).sequence + r.capacity
    ensures r.SlotOf(s, pos).sequence < s.writeCursor + r.capacity
  {
    var lo := r.RecycledCount(s);
    var owner := WindowArith.OwnerInLap(lo, pos, r.capacity);
    assert r.SlotOk(s, owner) && r.SlotOf(s, owner) == r.SlotOf(s, pos);
  }

  lemma EnabledAgrees(r: Ring, s: State, e: Event)
    requires r.Inv(s) && ValidCapacity(r.capacity) && InReach(r, s, e)
    ensures WordShape(r, Words(s)) && (WordEnabled(r, Words(s), e) <==> r.Enabled(s, e))
  {
    ShapeOfWords(r, s);
    if e.CasSucceeds? && e.p < r.threads && s.producers[e.p].AtCas? {
      assert r.ProducerOk(s, e.p);
      WrappedDistance(s.writeCursor, s.producers[e.p].pos);
    }
  }

  /** Moving a producer. */
  lemma ProducerAgrees(s: State, p: nat, local: Producer)
    requires p < |s.producers|
    ensures Words(s.(producers := s.producers[p := local]))
         == Words(s).(producers := Words(s).producers[p := ProducerWords(local)])
  {
    MapUpdate(ProducerWords, s.producers, p, local);
  }

  lemma CapacityIsHalf(capacity: nat)
    requires ValidCapacity(capacity)
    ensures capacity <= HALF
  {
    PowerOfTwoCheck(capacity);
    var k: nat :| capacity == Pow2(k);
    Pow2Of64();
    if k >= 64 {
      Pow2Monotone(64, k);
    } else {
      Pow2Monotone(k, 63);
    }
  }

  /** A push takes the branch of the unbounded ring at its slot exactly when the slot is less
      than 2^63 ahead; further on it takes the ring for full. */
  lemma BranchAgreesIff(r: Ring, s: State, p: nat)
    requires r.Inv(s) && r.capacity >= 2 && ValidCapacity(r.capacity)
    requires r.Enabled(s, LoadSequence(p)) && WordShape(r, Words(s)) && WordEnabled(r, Words(s), LoadSequence(p))
    requires r.SlotOf(s, s.producers[p].pos).sequence < s.producers[p].pos + WORD
    ensures WordStep(r, Words(s), LoadSequence(p)) == Words(r.Step(s, LoadSequence(p)))
       <==> r.SlotOf(s, s.producers[p].pos).sequence < s.producers[p].pos + HALF
  {
    var AtSlot(item, pos) := s.producers[p];
    var ahead := r.SlotOf(s, pos).sequence;
    assert r.ProducerOk(s, p);
    SlotIsNear(r, s, pos);
    CapacityIsHalf(r.capacity);
    SlotAgrees(r, s, pos);
    ProducerAgrees(s, p, r.Step(s, LoadSequence(p)).producers[p]);
    if ahead < pos + HALF {
      DiffOfWords(ahead, pos);
    } else {
      SignIsRightIff(ahead, pos);
      assert WordStep(r, Words(s), LoadSequence(p)).producers[p] == Idle;
      assert Words(r.Step(s, LoadSequence(p))).producers[p] == Loading(item);
    }
  }

  lemma ClaimAgrees(r: Ring, s: State, p: nat)
    requires r.Shape(s) && ValidCapacity(r.capacity)
    requires r.Enabled(s, CasSucceeds(p)) && WordShape(r, Words(s)) && WordEnabled(r, Words(s), CasSucceeds(p))
    ensures WordStep(r, Words(s), CasSucceeds(p)) == Words(r.Step(s, CasSucceeds(p)))
  {
    var AtCas(item, pos) := s.producers[p];
    WrappedSum(pos, 1);
    ProducerAgrees(s, p, Writing(item, pos, 0));
  }

  lemma StoreAgrees(r: Ring, s: State, p: nat)
    requires r.Shape(s) && ValidCapacity(r.capacity)
    requires r.Enabled(s, StoreWord(p)) && WordShape(r, Words(s)) && WordEnabled(r, Words(s), StoreWord(p))
    ensures WordStep(r, Words(s), StoreWord(p)) == Words(r.Step(s, StoreWord(p)))
  {
    var Writing(item, pos, done) := s.producers[p];
    SlotAgrees(r, s, pos);
    var slot := r.SlotOf(s, pos).(data := r.SlotOf(s, pos).data[done := item[done]]);
    WithSlotAgrees(r, s, pos, slot);
    ProducerAgrees(s.(slots := s.slots[pos % r.capacity := slot]), p, Writing(item, pos, done + 1));
  }

  lemma PublishAgrees(r: Ring, s: State, p: nat)
    requires r.Shape(s) && ValidCapacity(r.capacity)
    requires r.Enabled(s, Publish(p)) && WordShape(r, Words(s)) && WordEnabled(r, Words(s), Publish(p))
    ensures WordStep(r, Words(s), Publish(p)) == Words(r.Step(s, Publish(p)))
  {
    var Writing(item, pos, done) := s.producers[p];
    WrappedSum(pos, 1);
    SlotAgrees(r, s, pos);
    var slot := r.SlotOf(s, pos).(sequence := pos + 1);
    WithSlotAgrees(r, s, pos, slot);
    ProducerAgrees(s.(slots := s.slots[pos % r.capacity := slot]), p, Idle);
  }

  lemma CheckAgrees(r: Ring, s: State)
    requires r.Inv(s) && ValidCapacity(r.capacity)
    requires r.Enabled(s, Check) && WordShape(r, Words(s)) && WordEnabled(r, Words(s), Check)
    ensures WordStep(r, Words(s), Check) == Words(r.Step(s, Check))
  {
    var pos := s.readCursor;
    assert r.SlotOk(s, pos);
    SlotAgrees(r, s, pos);
    ReadyAgrees(pos, r.SlotOf(s, pos).sequence);
  }

  lemma ReadyAgrees(pos: nat, sequence: nat)
    requires pos <= sequence <= pos + 1
    ensures Wrap(sequence) == Wrap(Wrap(pos) + 1) <==> sequence == pos + 1
  {
    WrappedSum(pos, 1);
    WrappedDistance(pos + 1, sequence);
  }

  lemma RecycleAgrees(r: Ring, s: State)
    requires r.Shape(s) && ValidCapacity(r.capacity)
    requires r.Enabled(s, Recycle) && WordShape(r, Words(s)) && WordEnabled(r, Words(s), Recycle)
    ensures WordStep(r, Words(s), Recycle) == Words(r.Step(s, Recycle))
  {
    var pos := s.readCursor;
    SlotAgrees(r, s, pos);
    WrappedSum(pos, r.capacity);
    WithSlotAgrees(r, s, pos, r.SlotOf(s, pos).(sequence := pos + r.capacity));
  }

  /** Each step on words is the step on counters. */
  lemma StepAgrees(r: Ring, s: State, e: Event)
    requires r.Inv(s) && r.capacity >= 2 && ValidCapacity(r.capacity) && InReach(r, s, e) && r.Enabled(s, e)
    ensures WordShape(r, Words(s)) && WordEnabled(r, Words(s), e)
    ensures WordStep(r, Words(s), e) == Words(r.Step(s, e))
  {
    EnabledAgrees(r, s, e);
    match e
    case Call(p, item) => ProducerAgrees(s, p, Loading(item));
    case LoadCursor(p, seen) => ProducerAgrees(s, p, AtSlot(s.producers[p].item, seen));
    case LoadSequence(p) => BranchAgreesIff(r, s, p);
    case CasSucceeds(p) => ClaimAgrees(r, s, p);
    case CasFails(p, seen) => ProducerAgrees(s, p, AtSlot(s.producers[p].item, seen));
    case StoreWord(p) => StoreAgrees(r, s, p);
    case Publish(p) => PublishAgrees(r, s, p);
    case Check => CheckAgrees(r, s);
    case CopyWord => SlotAgrees(r, s, s.readCursor);
    case Recycle => RecycleAgrees(r, s);
    case Advance => WrappedSum(s.readCursor, 1);
  }

  lemma InitAgrees(r: Ring)
    requires ValidCapacity(r.capacity)
    ensures Words(r.Init()) == r.Init()
  {
    var s := r.Init();
    assert Map(SlotWords, s.slots) == s.slots;
    assert Map(ProducerWords, s.producers) == s.producers;
  }

  /** The words of a run, if the run is possible. */
  function WordsOf(s: Option<State>): Option<State> {
    match s
    case None => None
    case Some(s) => Some(Words(s))
  }

  /** The machine can make exactly the runs of the unbounded ring, and reaches the words of
      its states, as long as they stay in reach. */
  lemma {:induction false} WordsRunAlike(r: Ring, es: seq<Event>)
    requires r.capacity >= 2 && ValidCapacity(r.capacity) && StaysInReach(r, es)
    ensures WordExec(r, es) == WordsOf(r.Exec(es))
  {
    if es == [] {
      InitAgrees(r);
    } else {
      var before, e := es[..|es| - 1], es[|es| - 1];
      WordsRunAlike(r, before);
      if r.Exec(before).Some? {
        var s := r.Exec(before).value;
        r.RunsAreSafe(before);
        EnabledAgrees(r, s, e);
        if r.Enabled(s, e) { StepAgrees(r, s, e); }
      }
    }
  }

  /** A producer whose position lags the write cursor by at most 2^63 - capacity is in reach. */
  lemma PromptIsInReach(r: Ring, s: State, e: Event)
    requires r.Inv(s) && r.capacity >= 2
    requires forall p :: 0 <= p < r.threads && (s.producers[p].AtSlot? || s.producers[p].AtCas?) ==>
      s.writeCursor + r.capacity <= s.producers[p].pos + HALF
    ensures InReach(r, s, e)
  {
    match e
    case LoadSequence(p) =>
      if p < r.threads && s.producers[p].AtSlot? {
        assert r.ProducerOk(s, p);
        SlotIsNear(r, s, s.producers[p].pos);
      }
    case _ =>
  }

  /** So a run stays in reach for its first 2^63 - capacity pushes. */
  lemma {:induction false} ShortRunsStayInReach(r: Ring, es: seq<Event>)
    requires r.capacity >= 2 && r.Exec(es).Some? && |r.Exec(es).value.claimed| + r.capacity <= HALF
    ensures StaysInReach(r, es)
  {
    if es != [] {
      var before := es[..|es| - 1];
      r.LastStep(es, before);
      ShortRunsStayInReach(r, before);
      r.RunsAreSafe(before);
      PromptIsInReach(r, r.Exec(before).value, es[|es| - 1]);
    }
  }

  /** So its runs pop the claimed items whole and in order, and keep each producer's order. */
  lemma WordRunsAreSafe(r: Ring, es: seq<Event>)
    requires r.capacity >= 2 && ValidCapacity(r.capacity) && StaysInReach(r, es) && WordExec(r, es).Some?
    ensures var s := WordExec(r, es).value;
      && |s.popped| <= |s.claimed| && |s.producers| == |s.returned| == r.threads
      && (forall i :: 0 <= i < |s.popped| ==> s.popped[i] == s.claimed[i].item)
      && (forall p :: 0 <= p < r.threads ==>
            Ring.ClaimedBy(s.claimed, p) ==
            s.returned[p] + if s.producers[p].Writing? then [s.producers[p].item] else [])
  {
    WordsRunAlike(r, es);
    r.RunsAreSafe(es);
    WordsOfSafe(r, r.Exec(es).value);
  }

  /** Words change no item and no phase. */
  lemma WordsOfSafe(r: Ring, s: State)
    requires r.Shape(s) && r.Safe(s)
    ensures var w := Words(s);
      && |w.popped| <= |w.claimed| && |w.producers| == |w.returned| == r.threads
      && (forall i :: 0 <= i < |w.popped| ==> w.popped[i] == w.claimed[i].item)
      && (forall p :: 0 <= p < r.threads ==>
            Ring.ClaimedBy(w.claimed, p) ==
            w.returned[p] + if w.producers[p].Writing? then [w.producers[p].item] else [])
  {
  }

  /** And they are the items of calls, here too. */
  lemma WordPopsAreCalls(r: Ring, es: seq<Event>)
    requires r.capacity >= 2 && ValidCapacity(r.capacity) && StaysInReach(r, es) && WordExec(r, es).Some?
    ensures var s := WordExec(r, es).value;
      && |s.returned| == r.threads
      && (forall p :: 0 <= p < r.threads ==>
            |s.returned[p]| <= |Ring.ClaimingCalls(es, p)|
            && Chosen(s.returned[p], Ring.CalledBy(es, p), Ring.ClaimingCalls(es, p)[..|s.returned[p]|]))
      && (forall i :: 0 <= i < |s.popped| ==> r.FromCall(es, s.claimed, i, s.popped[i]))
  {
    WordsRunAlike(r, es);
    r.PopsAreCalls(es);
  }

  // ----- A run that leaves it -----

  /** Two slots, empty payloads, two producers. */
  const PAIR := Ring(2, 0, 2)

  /** Producer 0 has loaded position 0 and stopped; since then `n` items of producer 1 have
      been pushed and popped. */
  function Stalled(n: nat): State {
    State(FreeSlots(n), n, n, [AtSlot([], 0), Idle], Ready,
          Repeat(Claim(1, []), n), Repeat([], n), [[], Repeat([], n)])
  }

  function FreeSlots(n: nat): (slots: seq<Slot>)
    ensures |slots| == 2 && slots[n % 2] == Slot([], n) && slots[(n + 1) % 2] == Slot([], n + 1)
  {
    if n % 2 == 0 then [Slot([], n), Slot([], n + 1)] else [Slot([], n + 1), Slot([], n)]
  }

  /** A run of the pair that stays in reach and ends in `s`, and one more step. */
  lemma OneMore(es: seq<Event>, s: State, e: Event, t: State) returns (es': seq<Event>)
    requires PAIR.Exec(es) == Some(s) && StaysInReach(PAIR, es)
    requires PAIR.Enabled(s, e) && InReach(PAIR, s, e) && PAIR.Step(s, e) == t
    ensures PAIR.Exec(es') == Some(t) && StaysInReach(PAIR, es')
  {
    es' := es + [e];
    assert es'[..|es'| - 1] == es;
  }

  /** Producer 1 has position `n` and is about to claim it. */
  function Claiming(n: nat): State { Stalled(n).(producers := [AtSlot([], 0), AtCas([], n)]) }

  lemma ApproachOne(es: seq<Event>, n: nat) returns (es': seq<Event>)
    requires PAIR.Exec(es) == Some(Stalled(n)) && StaysInReach(PAIR, es)
    ensures PAIR.Exec(es') == Some(Claiming(n)) && StaysInReach(PAIR, es')
  {
    var s := Stalled(n);
    var s1, s2 := s.(producers := [AtSlot([], 0), Loading([])]), s.(producers := [AtSlot([], 0), AtSlot([], n)]);
    es' := OneMore(es, s, Call(1, []), s1);
    es' := OneMore(es', s1, LoadCursor(1, n), s2);
    es' := OneMore(es', s2, LoadSequence(1), Claiming(n));
  }

  /** And then owns it. */
  function Claimed(n: nat): State {
    Stalled(n).(producers := [AtSlot([], 0), Writing([], n, 0)], writeCursor := n + 1,
                claimed := Repeat(Claim(1, []), n + 1))
  }

  lemma PushOne(es: seq<Event>, n: nat) returns (es': seq<Event>)
    requires PAIR.Exec(es) == Some(Stalled(n)) && StaysInReach(PAIR, es)
    ensures PAIR.Exec(es') == Some(Pushed(n)) && StaysInReach(PAIR, es')
  {
    es' := ApproachOne(es, n);
    RepeatGrows(Claim(1, []), n);
    es' := OneMore(es', Claiming(n), CasSucceeds(1), Claimed(n));
    PublishedPair(n);
    es' := OneMore(es', Claimed(n), Publish(1), Pushed(n));
  }

  /** One item is in the ring. */
  function Pushed(n: nat): State {
    Stalled(n).(slots := FreeSlots(n)[n % 2 := Slot([], n + 1)], writeCursor := n + 1,
                claimed := Repeat(Claim(1, []), n + 1), returned := [[], Repeat([], n + 1)])
  }

  lemma PublishedPair(n: nat)
    ensures var s := Claimed(n);
      PAIR.Shape(s) && PAIR.Enabled(s, Publish(1)) && PAIR.Step(s, Publish(1)) == Pushed(n)
  {
    var none: Item := [];
    RepeatGrows(none, n);
  }

  lemma RecycledPair(n: nat, s: State)
    requires s == Pushed(n).(consumer := Reading([]))
    ensures PAIR.Shape(s) && PAIR.Enabled(s, Recycle)
    ensures PAIR.Step(s, Recycle) == Pushed(n).(consumer := Recycled([]), slots := FreeSlots(n + 1))
  {
  }

  lemma PopOne(es: seq<Event>, n: nat) returns (es': seq<Event>)
    requires PAIR.Exec(es) == Some(Pushed(n)) && StaysInReach(PAIR, es)
    ensures PAIR.Exec(es') == Some(Stalled(n + 1)) && StaysInReach(PAIR, es')
  {
    var s := Pushed(n);
    var s1, s2 := s.(consumer := Reading([])), s.(consumer := Recycled([]), slots := FreeSlots(n + 1));
    es' := OneMore(es, s, Check, s1);
    RecycledPair(n, s1);
    es' := OneMore(es', s1, Recycle, s2);
    var none: Item := [];
    RepeatGrows(none, n);
    es' := OneMore(es', s2, Advance, Stalled(n + 1));
  }

  lemma {:induction false} StalledRun(n: nat) returns (es: seq<Event>)
    ensures PAIR.Exec(es) == Some(Stalled(n)) && StaysInReach(PAIR, es)
  {
    if n == 0 {
      var s := PAIR.Init();
      es := OneMore([], s, Call(0, []), s.(producers := [Loading([]), Idle]));
      es := OneMore(es, s.(producers := [Loading([]), Idle]), LoadCursor(0, 0), Stalled(0));
    } else {
      es := StalledRun(n - 1);
      es := PushOne(es, n - 1);
      es := PopOne(es, n - 1);
    }
  }

  /** After 2^63 pushes and pops the stalled producer takes an empty ring for full: its push
      returns false, where the unbounded ring has it try again. */
  lemma EmptyRingRefuses() returns (es: seq<Event>)
    ensures PAIR.Exec(es).Some? && WordExec(PAIR, es + [LoadSequence(0)]).Some?
    ensures var s := PAIR.Exec(es).value;
      && |s.popped| == |s.claimed| && s.producers[0] == AtSlot([], 0)
      && PAIR.Enabled(s, LoadSequence(0)) && PAIR.Step(s, LoadSequence(0)).producers[0] == Loading([])
    ensures WordExec(PAIR, es + [LoadSequence(0)]).value.producers[0] == Idle
  {
    es := StalledRun(HALF);
    var s := Stalled(HALF);
    assert ValidCapacity(2);
    WordsRunAlike(PAIR, es);
    PAIR.RunsAreSafe(es);
    EnabledAgrees(PAIR, s, Call(0, []));
    SlotAgrees(PAIR, s, 0);
    assert (es + [LoadSequence(0)])[..|es|] == es;
  }
}
