/** Per-stream sequence-gap detection in front of a ring. */
module FeedHandler {
  import opened Message
  import opened Sequences
  import opened SpscRing
  import opened WordArith
  import opened Wrappers

  /** What an adapter's parser makes of one raw message. */
  datatype ParseResult = Ok(msg: Message) | Heartbeat(streamId: U32, seqNo: U64) | Skipped | Malformed

  /** on_gap(streamId, from, to): everything strictly between `from` and `to` was missed. */
  datatype Gap = Gap(streamId: U32, from: U64, to: U64)

  // ----- One stream -----

  /** The sequence numbers of `seqs` that are accepted: each larger than all before it. */
  function Accepted(seqs: seq<U64>): seq<U64> {
    if seqs == [] then []
    else
      var before, s := Accepted(seqs[..|seqs| - 1]), seqs[|seqs| - 1];
      if before == [] || s > before[|before| - 1] then before + [s] else before
  }

  /** The gaps that are reported for `seqs`. */
  function GapsIn(seqs: seq<U64>, id: U32): seq<Gap> {
    if seqs == [] then []
    else
      var n := |seqs| - 1;
      var before := Accepted(seqs[..n]);
      GapsIn(seqs[..n], id) +
      if before != [] && seqs[n] as int > before[|before| - 1] as int + 1
      then [Gap(id, before[|before| - 1], seqs[n])] else []
  }

  /** How often `n` was accepted. */
  function TimesAccepted(accepted: seq<U64>, n: int): nat {
    if accepted == [] then 0
    else TimesAccepted(accepted[..|accepted| - 1], n) + if accepted[|accepted| - 1] == n then 1 else 0
  }

  /** How many gaps cover `n`. */
  function TimesMissed(gaps: seq<Gap>, n: int): nat {
    if gaps == [] then 0
    else
      var g := gaps[|gaps| - 1];
      TimesMissed(gaps[..|gaps| - 1], n) + if g.from < n < g.to then 1 else 0
  }

  lemma CountAppend(accepted: seq<U64>, s: U64, gaps: seq<Gap>, g: Gap, n: int)
    ensures TimesAccepted(accepted + [s], n) == TimesAccepted(accepted, n) + if s == n then 1 else 0
    ensures TimesMissed(gaps + [g], n) == TimesMissed(gaps, n) + if g.from < n < g.to then 1 else 0
  {
    assert (accepted + [s])[..|accepted + [s]| - 1] == accepted;
    assert (gaps + [g])[..|gaps + [g]| - 1] == gaps;
  }

  lemma {:induction false} AcceptedAscend(seqs: seq<U64>)
    ensures seqs != [] ==> Accepted(seqs) != [] && Accepted(seqs)[0] == seqs[0]
    ensures forall i, j :: 0 <= i < j < |Accepted(seqs)| ==> Accepted(seqs)[i] < Accepted(seqs)[j]
  {
    if seqs != [] { AcceptedAscend(seqs[..|seqs| - 1]); }
  }

  /** The number at `i` is larger than all that arrived before it. */
  predicate IsRecord(seqs: seq<U64>, i: nat)
    requires i < |seqs|
  {
    forall j :: 0 <= j < i ==> seqs[j] < seqs[i]
  }

  /** The last accepted number is the largest that has arrived. */
  lemma {:induction false} LastIsLargest(seqs: seq<U64>)
    requires seqs != []
    ensures var accepted := Accepted(seqs);
      && accepted != [] && accepted[|accepted| - 1] in seqs
      && forall j :: 0 <= j < |seqs| ==> seqs[j] <= accepted[|accepted| - 1]
  {
    if |seqs| > 1 { LastIsLargest(seqs[..|seqs| - 1]); }
  }

  /** A number is accepted exactly when it was larger than everything before it as it came. */
  lemma {:induction false} AcceptedIff(seqs: seq<U64>, n: U64)
    ensures n in Accepted(seqs) <==> exists i :: 0 <= i < |seqs| && seqs[i] == n && IsRecord(seqs, i)
  {
    if seqs != [] {
      var k := |seqs| - 1;
      var before := seqs[..k];
      AcceptedIff(before, n);
      assert forall i :: 0 <= i < k ==> (IsRecord(before, i) <==> IsRecord(seqs, i));
      if before != [] {
        LastIsLargest(before);
        var last := Accepted(before)[|Accepted(before)| - 1];
        assert IsRecord(seqs, k) <==> seqs[k] > last by {
          var j :| 0 <= j < k && seqs[j] == last;
        }
      }
    }
  }

  predicate IsGap(accepted: seq<U64>, g: Gap, k: nat)
    requires k + 1 < |accepted|
  {
    g.from == accepted[k] && g.to == accepted[k + 1] && g.to as int > g.from as int + 1
  }

  /** A gap is reported exactly between two accepted numbers in a row that are not adjacent. */
  lemma {:induction false} GapsIff(seqs: seq<U64>, id: U32, g: Gap)
    ensures g in GapsIn(seqs, id) <==>
      g.streamId == id && exists k :: 0 <= k < |Accepted(seqs)| - 1 && IsGap(Accepted(seqs), g, k)
  {
    if seqs != [] {
      var n := |seqs| - 1;
      GapsIff(seqs[..n], id, g);
      SplitLast(seqs);
      OneMoreNumber(seqs[..n], seqs[n], id);
      GapsOfMore(Accepted(seqs[..n]), GapsIn(seqs[..n], id), id, seqs[n], g);
    }
  }

  lemma GapsOfMore(before: seq<U64>, gaps: seq<Gap>, id: U32, s: U64, g: Gap)
    requires g in gaps <==> g.streamId == id && exists k :: 0 <= k < |before| - 1 && IsGap(before, g, k)
    ensures var after := AcceptedWith(before, s);
      g in GapsWith(gaps, before, id, s) <==>
        g.streamId == id && exists k :: 0 <= k < |after| - 1 && IsGap(after, g, k)
  {
    var after, n := AcceptedWith(before, s), |before|;
    assert forall k :: 0 <= k < n - 1 ==> (IsGap(before, g, k) <==> IsGap(after, g, k));
    if |after| > n > 0 {
      assert IsGap(after, g, n - 1) <==> g.from == before[n - 1] && g.to == s && s as int > before[n - 1] as int + 1;
    }
  }

  /** `n` lies between the first and the last accepted number. */
  predicate Spanned(accepted: seq<U64>, n: int) {
    accepted != [] && accepted[0] <= n <= accepted[|accepted| - 1]
  }

  /** What one more number does to the accepted ones and the gaps. */
  function AcceptedWith(before: seq<U64>, s: U64): seq<U64> {
    if before == [] || s > before[|before| - 1] then before + [s] else before
  }

  function GapsWith(gaps: seq<Gap>, before: seq<U64>, id: U32, s: U64): seq<Gap> {
    if before != [] && s as int > before[|before| - 1] as int + 1
    then gaps + [Gap(id, before[|before| - 1], s)] else gaps
  }

  lemma OneMoreNumber(seqs: seq<U64>, s: U64, id: U32)
    ensures Accepted(seqs + [s]) == AcceptedWith(Accepted(seqs), s)
    ensures GapsIn(seqs + [s], id) == GapsWith(GapsIn(seqs, id), Accepted(seqs), id, s)
  {
    assert (seqs + [s])[..|seqs + [s]| - 1] == seqs;
    assert GapsIn(seqs, id) + [] == GapsIn(seqs, id);
  }

  predicate Tiles(accepted: seq<U64>, gaps: seq<Gap>, n: int) {
    TimesAccepted(accepted, n) + TimesMissed(gaps, n) == if Spanned(accepted, n) then 1 else 0
  }

  lemma TileStep(before: seq<U64>, gaps: seq<Gap>, id: U32, s: U64, n: int)
    requires before != [] ==> before[0] <= before[|before| - 1]
    requires Tiles(before, gaps, n)
    ensures Tiles(AcceptedWith(before, s), GapsWith(gaps, before, id, s), n)
  {
    CountAppend(before, s, gaps, Gap(id, if before == [] then s else before[|before| - 1], s), n);
  }

  /** Accepted numbers and open gaps tile the range from the first to the last accepted
      number: every number in it is accepted once or missed in one gap, never both, and
      nothing outside it is either. */
  lemma {:induction false} AcceptedAndGapsTile(seqs: seq<U64>, id: U32, n: int)
    ensures Tiles(Accepted(seqs), GapsIn(seqs, id), n)
  {
    if seqs != [] {
      var past, s := seqs[..|seqs| - 1], seqs[|seqs| - 1];
      AcceptedAndGapsTile(past, id, n);
      AcceptedAscend(past);
      SplitLast(seqs);
      OneMoreNumber(past, s, id);
      TileStep(Accepted(past), GapsIn(past, id), id, s, n);
    }
  }

  /** A stream's last accepted number and reported gaps are those of its arrivals. */
  ghost predicate StreamSound(id: U32, last: Option<U64>, arrived: seq<U64>, gaps: seq<Gap>, notifies: bool) {
    var accepted := Accepted(arrived);
    && last == (if accepted == [] then None else Some(accepted[|accepted| - 1]))
    && gaps == (if notifies then GapsIn(arrived, id) else [])
  }

  /** One more arrival: what is accepted, and what is reported. */
  lemma OneMoreArrival(id: U32, last: Option<U64>, arrived: seq<U64>, gaps: seq<Gap>, notifies: bool, s: U64)
    requires StreamSound(id, last, arrived, gaps, notifies)
    ensures last.Some? && s <= last.value ==> StreamSound(id, last, arrived + [s], gaps, notifies)
    ensures last.None? || s > last.value ==>
      StreamSound(id, Some(s), arrived + [s],
                  if notifies && last.Some? && s as int > last.value as int + 1
                  then gaps + [Gap(id, last.value, s)] else gaps, notifies)
  {
    OneMoreNumber(arrived, s, id);
  }

  lemma NoWrap(last: U64, s: U64)
    requires s > last
    ensures Wrap(last + 1) == last + 1
  {
  }

  // ----- The handler -----

  /** The gaps of `log` on stream `id`. */
  function GapsOf(log: seq<Gap>, id: U32): seq<Gap> {
    if log == [] then []
    else GapsOf(log[..|log| - 1], id) + if log[|log| - 1].streamId == id then [log[|log| - 1]] else []
  }

  lemma OneMoreGap(log: seq<Gap>, g: Gap, id: U32)
    ensures GapsOf(log + [g], id) == if g.streamId == id then GapsOf(log, id) + [g] else GapsOf(log, id)
  {
    assert (log + [g])[..|log + [g]| - 1] == log;
    assert GapsOf(log, id) + [] == GapsOf(log, id);
  }

  function LastOn(last: map<U32, U64>, id: U32): Option<U64> {
    if id in last then Some(last[id]) else None
  }

  function ArrivedOn(arrived: map<U32, seq<U64>>, id: U32): seq<U64> {
    if id in arrived then arrived[id] else []
  }

  /** Every stream is sound. */
  ghost predicate StreamsSound(last: map<U32, U64>, arrived: map<U32, seq<U64>>, log: seq<Gap>, notifies: bool) {
    forall id :: StreamSound(id, LastOn(last, id), ArrivedOn(arrived, id), GapsOf(log, id), notifies)
  }

  /** `s` is the first number on stream `id`, or larger than the last one. */
  predicate Fresh(last: map<U32, U64>, id: U32, s: U64) { id in last ==> s > last[id] }

  /** What an arrival does to the last numbers, the arrivals and the log. */
  function LastWith(last: map<U32, U64>, id: U32, s: U64): map<U32, U64> {
    if Fresh(last, id, s) then last[id := s] else last
  }

  function LastSeen(last: map<U32, U64>, r: ParseResult): map<U32, U64> {
    match r
    case Ok(m) => LastWith(last, m.streamId, m.seqNo)
    case Heartbeat(id, s) => LastWith(last, id, s)
    case _ => last
  }

  function ArrivedWith(arrived: map<U32, seq<U64>>, id: U32, s: U64): map<U32, seq<U64>> {
    arrived[id := ArrivedOn(arrived, id) + [s]]
  }

  function LogWith(log: seq<Gap>, last: map<U32, U64>, notifies: bool, id: U32, s: U64): seq<Gap> {
    if notifies && id in last && s as int > last[id] as int + 1 then log + [Gap(id, last[id], s)] else log
  }

  lemma LogOfSum(earlier: seq<Gap>, log: seq<Gap>, last: map<U32, U64>, notifies: bool, id: U32, s: U64)
    ensures LogWith(earlier + log, last, notifies, id, s) == earlier + LogWith(log, last, notifies, id, s)
  {
    if id in last { Associate(earlier, log, [Gap(id, last[id], s)]); }
  }

  lemma ArrivalKeepsSound(last: map<U32, U64>, arrived: map<U32, seq<U64>>, log: seq<Gap>, notifies: bool,
      id: U32, s: U64)
    requires StreamsSound(last, arrived, log, notifies)
    ensures StreamsSound(LastWith(last, id, s), ArrivedWith(arrived, id, s), LogWith(log, last, notifies, id, s),
                         notifies)
  {
    var last', arrived' := LastWith(last, id, s), ArrivedWith(arrived, id, s);
    var log' := LogWith(log, last, notifies, id, s);
    forall other
      ensures StreamSound(other, LastOn(last', other), ArrivedOn(arrived', other), GapsOf(log', other), notifies)
    {
      assert StreamSound(other, LastOn(last, other), ArrivedOn(arrived, other), GapsOf(log, other), notifies);
      if id in last { OneMoreGap(log, Gap(id, last[id], s), other); }
      if other == id {
        OneMoreArrival(id, LastOn(last, id), ArrivedOn(arrived, id), GapsOf(log, id), notifies, s);
      }
    }
  }

  /** Within each stream the sequence numbers increase. */
  ghost predicate TicksIncrease(ms: seq<Message>) {
    forall i, j :: 0 <= i < j < |ms| && ms[i].streamId == ms[j].streamId ==> ms[i].seqNo < ms[j].seqNo
  }

  /** What was pushed increases within each stream, up to its last number. */
  ghost predicate PushedSound(pushed: seq<Message>, last: map<U32, U64>) {
    && TicksIncrease(pushed)
    && forall i :: 0 <= i < |pushed| ==> pushed[i].streamId in last && pushed[i].seqNo <= last[pushed[i].streamId]
  }

  /** A tick of stream `id` numbered `s` would be the newest. */
  ghost predicate Newest(pushed: seq<Message>, id: U32, s: U64) {
    forall i :: 0 <= i < |pushed| && pushed[i].streamId == id ==> pushed[i].seqNo < s
  }

  lemma AcceptedNumber(pushed: seq<Message>, last: map<U32, U64>, id: U32, s: U64)
    requires PushedSound(pushed, last)
    ensures PushedSound(pushed, LastWith(last, id, s)) && (Fresh(last, id, s) ==> Newest(pushed, id, s))
  {
  }

  lemma PushedTick(pushed: seq<Message>, last: map<U32, U64>, m: Message)
    requires PushedSound(pushed, last) && Newest(pushed, m.streamId, m.seqNo)
    requires m.streamId in last && last[m.streamId] == m.seqNo
    ensures PushedSound(pushed + [m], last)
  {
  }

  class FeedHandler {
    const notifies: bool         // a gap callback is installed
    var lastSeq: map<U32, U64>
    var notified: seq<Gap>       // the callback's calls so far

    // since the last reset
    ghost var Arrived: map<U32, seq<U64>>  // per stream, ticks and heartbeats alike
    ghost var Log: seq<Gap>                // the callback's calls
    ghost var Pushed: seq<Message>
    ghost var Earlier: seq<Gap>  // the calls before it

    ghost predicate Tracking()
      reads this`lastSeq, this`notified, this`Arrived, this`Log, this`Earlier
    {
      notified == Earlier + Log && StreamsSound(lastSeq, Arrived, Log, notifies)
    }

    ghost predicate Valid()
      reads this
    {
      Tracking() && PushedSound(Pushed, lastSeq)
    }

    constructor (notifies: bool)
      ensures Valid() && this.notifies == notifies && notified == [] && Arrived == map[] && Pushed == []
    {
      this.notifies := notifies;
      lastSeq, notified := map[], [];
      Arrived, Log, Pushed, Earlier := map[], [], [], [];
    }

    /** The gap state machine; false drops a duplicate or an older number. */
    method CheckSeq(id: U32, s: U64) returns (accepted: bool)
      modifies this`lastSeq, this`notified
      ensures accepted <==> Fresh(old(lastSeq), id, s)
      ensures lastSeq == LastWith(old(lastSeq), id, s)
      ensures notified == LogWith(old(notified), old(lastSeq), notifies, id, s)
    {
      if id !in lastSeq {
        lastSeq := lastSeq[id := s];
        return true;
      }
      var last := lastSeq[id];
      if s <= last {
        return false;
      }
      NoWrap(last, s);
      if s > Wrap(last + 1) && notifies {
        notified := notified + [Gap(id, last, s)];
      }
      lastSeq := lastSeq[id := s];
      return true;
    }

    /** It keeps the promise about everything that arrived. */
    method AcceptSeq(id: U32, s: U64) returns (accepted: bool)
      requires Valid()
      modifies this`lastSeq, this`notified, this`Arrived, this`Log
      ensures Valid() && (accepted ==> Newest(Pushed, id, s))
      ensures Arrived == ArrivedWith(old(Arrived), id, s)
      ensures accepted <==> Fresh(old(lastSeq), id, s)
      ensures lastSeq == LastWith(old(lastSeq), id, s)
      ensures notified == LogWith(old(notified), old(lastSeq), notifies, id, s)
    {
      ArrivalKeepsSound(lastSeq, Arrived, Log, notifies, id, s);
      LogOfSum(Earlier, Log, lastSeq, notifies, id, s);
      AcceptedNumber(Pushed, lastSeq, id, s);
      Arrived, Log := ArrivedWith(Arrived, id, s), LogWith(Log, lastSeq, notifies, id, s);
      accepted := CheckSeq(id, s);
    }

    method Reset()
      requires Valid()
      modifies this
      ensures Valid() && lastSeq == map[] && Arrived == map[] && Pushed == [] && notified == old(notified)
    {
      lastSeq := map[];
      Arrived, Log, Pushed, Earlier := map[], [], [], notified;
    }

    /** Pushes an accepted tick if there is room. */
    method PushTick(m: Message, buffer: SpscRingBuffer<Message>) returns (pushed: bool)
      requires Valid() && buffer.Valid() && buffer.storage as object != this
      requires Newest(Pushed, m.streamId, m.seqNo) && m.streamId in lastSeq && lastSeq[m.streamId] == m.seqNo
      modifies this`Pushed, buffer, buffer.storage
      ensures Valid() && buffer.Valid()
      ensures pushed <==> |old(buffer.Items)| < buffer.capacity
      ensures Pushed == if pushed then old(Pushed) + [m] else old(Pushed)
      ensures buffer.Items == if pushed then old(buffer.Items) + [m] else old(buffer.Items)
    {
      pushed := buffer.TryPush(m);
      if pushed {
        PushedTick(Pushed, lastSeq, m);
        Pushed := Pushed + [m];
      }
    }

    /** Gap-checks one parsed message and pushes it if it is a new tick and there is room. */
    method Handle(r: ParseResult, buffer: SpscRingBuffer<Message>) returns (pushed: bool)
      requires Valid() && buffer.Valid() && buffer.storage as object != this
      modifies this, buffer, buffer.storage
      ensures Valid() && buffer.Valid()
      ensures pushed <==>
        && r.Ok?
        && Fresh(old(lastSeq), r.msg.streamId, r.msg.seqNo)
        && |old(buffer.Items)| < buffer.capacity
      ensures Pushed == if pushed then old(Pushed) + [r.msg] else old(Pushed)
      ensures buffer.Items == if pushed then old(buffer.Items) + [r.msg] else old(buffer.Items)
      // ticks and heartbeats count as arrivals, everything else leaves no trace
      ensures Arrived == match r
        case Ok(m) => ArrivedWith(old(Arrived), m.streamId, m.seqNo)
        case Heartbeat(id, s) => ArrivedWith(old(Arrived), id, s)
        case _ => old(Arrived)
      ensures lastSeq == LastSeen(old(lastSeq), r)
      ensures r.Skipped? || r.Malformed? ==> notified == old(notified)
    {
      match r {
        case Ok(m) =>
          var accepted := AcceptSeq(m.streamId, m.seqNo);
          if !accepted {
            return false;  // duplicate or older: dropped
          }
          pushed := PushTick(m, buffer);
        case Heartbeat(id, s) =>
          var _ := AcceptSeq(id, s);
          return false;
        case _ =>
          return false;
      }
    }
  }

  // ----- The whole ingest path -----

  /** Within one session (between two reconnects) the ticks of a stream increase. */
  ghost predicate IncreaseInSessions(ms: seq<Message>, sessions: seq<nat>) {
    && |ms| == |sessions|
    && forall i, j :: 0 <= i < j < |ms| && sessions[i] == sessions[j] && ms[i].streamId == ms[j].streamId
         ==> (ms[i].seqNo < ms[j].seqNo)
  }

  /** The pushes so far: the last of them are the current session's. */
  ghost predicate SessionsOk(all: seq<Message>, sessions: seq<nat>, session: nat, current: seq<Message>) {
    && IncreaseInSessions(all, sessions)
    && |current| <= |all| && all[|all| - |current|..] == current
    && (forall i :: 0 <= i < |all| ==> sessions[i] <= session)
    && (forall i :: 0 <= i < |all| ==> (sessions[i] == session <==> i >= |all| - |current|))
  }

  lemma SessionPush(all: seq<Message>, sessions: seq<nat>, session: nat, current: seq<Message>, m: Message)
    requires SessionsOk(all, sessions, session, current) && TicksIncrease(current + [m])
    ensures SessionsOk(all + [m], sessions + [session], session, current + [m])
  {
    var n := |all| - |current|;
    forall i | 0 <= i < |all| && sessions[i] == session && all[i].streamId == m.streamId
      ensures all[i].seqNo < m.seqNo
    {
      assert (current + [m])[i - n] == all[i] && (current + [m])[|current|] == m;
    }
  }

  /** Every push has been popped or is still in the ring, session by session. */
  ghost predicate Tracked(popped: seq<Message>, items: seq<Message>, all: seq<Message>, sessions: seq<nat>,
      session: nat, current: seq<Message>) {
    popped + items == all && SessionsOk(all, sessions, session, current)
  }

  lemma PushTracked(popped: seq<Message>, items: seq<Message>, all: seq<Message>, sessions: seq<nat>,
      session: nat, current: seq<Message>, m: Message)
    requires Tracked(popped, items, all, sessions, session, current) && TicksIncrease(current + [m])
    ensures Tracked(popped, items + [m], all + [m], sessions + [session], session, current + [m])
  {
    Associate(popped, items, [m]);
    SessionPush(all, sessions, session, current, m);
  }

  lemma SessionEnds(all: seq<Message>, sessions: seq<nat>, session: nat, current: seq<Message>)
    requires SessionsOk(all, sessions, session, current)
    ensures SessionsOk(all, sessions, session + 1, [])
  {
  }

  lemma PrefixIncreases(popped: seq<Message>, left: seq<Message>, all: seq<Message>, sessions: seq<nat>)
    requires popped + left == all && IncreaseInSessions(all, sessions)
    ensures |popped| <= |sessions| && IncreaseInSessions(popped, sessions[..|popped|])
  {
    assert forall i :: 0 <= i < |popped| ==> popped[i] == all[i];
  }

  /** A handler feeding a ring.  In any mix of arrivals, pops and reconnects the popped
      ticks of every stream strictly increase between two reconnects, even when a full ring
      drops some. */
  class IngestPath {
    const handler: FeedHandler
    const buffer: SpscRingBuffer<Message>
    var popped: seq<Message>
    ghost var all: seq<Message>       // every push so far
    ghost var sessions: seq<nat>      // between which reconnects it came
    ghost var session: nat

    ghost predicate Valid()
      reads this, handler, buffer, buffer.storage
    {
      && handler.Valid() && buffer.Valid()
      && Tracked(popped, buffer.Items, all, sessions, session, handler.Pushed)
    }

    constructor (notifies: bool, capacity: nat)
      requires ValidCapacity(capacity)
      ensures Valid() && fresh(handler) && fresh(buffer) && fresh(buffer.storage) && popped == [] && session == 0
      ensures buffer.capacity == capacity
    {
      handler := new FeedHandler(notifies);
      buffer := new SpscRingBuffer<Message>(capacity);
      popped, all, sessions, session := [], [], [], 0;
    }

    /** The promise, read off the invariant. */
    lemma PoppedTicksIncrease()
      requires Valid()
      ensures |popped| <= |sessions| && IncreaseInSessions(popped, sessions[..|popped|])
    {
      PrefixIncreases(popped, buffer.Items, all, sessions);
    }

    /** The ring and the handler have taken `m`. */
    ghost method NotePush(items: seq<Message>, current: seq<Message>, m: Message)
      requires Tracked(popped, items, all, sessions, session, current)
      requires handler.Valid() && handler.Pushed == current + [m]
      requires buffer.Valid() && buffer.Items == items + [m]
      modifies this`all, this`sessions
      ensures Valid() && all == old(all) + [m]
    {
      PushTracked(popped, items, all, sessions, session, current, m);
      all, sessions := all + [m], sessions + [session];
    }

    method Arrive(r: ParseResult) returns (pushed: bool)
      requires Valid()
      modifies this, handler, buffer, buffer.storage
      ensures Valid() && popped == old(popped) && session == old(session)
      ensures pushed <==>
        && r.Ok?
        && Fresh(old(handler.lastSeq), r.msg.streamId, r.msg.seqNo)
        && |old(buffer.Items)| < buffer.capacity
      ensures all == if pushed then old(all) + [r.msg] else old(all)
      ensures buffer.Items == if pushed then old(buffer.Items) + [r.msg] else old(buffer.Items)
      ensures handler.lastSeq == LastSeen(old(handler.lastSeq), r)
    {
      ghost var current, items := handler.Pushed, buffer.Items;
      pushed := handler.Handle(r, buffer);
      if pushed {
        NotePush(items, current, r.msg);
      }
    }

    method Pop(last: Message) returns (ok: bool, out: Message)
      requires Valid()
      modifies this`popped, buffer
      ensures Valid() && all == old(all) && session == old(session)
      ensures ok <==> old(buffer.Items) != []
      ensures ok ==> popped == old(popped) + [old(buffer.Items)[0]] && buffer.Items == old(buffer.Items)[1..]
      ensures !ok ==> popped == old(popped) && buffer.Items == old(buffer.Items)
    {
      ok, out := buffer.TryPop(last);
      if ok {
        Associate(popped, [out], buffer.Items);
        popped := popped + [out];
      }
    }

    method Reconnect()
      requires Valid()
      modifies this`session, handler
      ensures Valid() && all == old(all) && popped == old(popped) && session == old(session) + 1
    {
      SessionEnds(all, sessions, session, handler.Pushed);
      handler.Reset();
      session := session + 1;
    }
  }
}
