/** The handler in front of the ring, with the consumer running at the same time. */
module Ingest {
  import opened FeedHandler
  import opened Message
  import opened Wrappers
  import SpscProtocol

  /** What the feed thread sees: parsed messages and reconnects. */
  datatype Arrival = Parsed(r: ParseResult) | Reconnected

  /** A tick the handler tries to push, and how many reconnects were before it. */
  datatype Attempt = Attempt(tick: Message, session: nat)

  /** `lastSeq` after some arrivals: `Handle` and `Reset` one after the other. */
  function LastAfter(arrivals: seq<Arrival>): map<U32, U64> {
    if arrivals == [] then map[]
    else
      match arrivals[|arrivals| - 1]
      case Parsed(r) => LastSeen(LastAfter(arrivals[..|arrivals| - 1]), r)
      case Reconnected => map[]
  }

  function Session(arrivals: seq<Arrival>): nat {
    if arrivals == [] then 0
    else Session(arrivals[..|arrivals| - 1]) + if arrivals[|arrivals| - 1].Reconnected? then 1 else 0
  }

  /** The ticks `Handle` calls `try_push` with: the fresh ones. */
  function Attempts(arrivals: seq<Arrival>): seq<Attempt> {
    if arrivals == [] then []
    else
      var before, a := arrivals[..|arrivals| - 1], arrivals[|arrivals| - 1];
      Attempts(before) +
      if a.Parsed? && a.r.Ok? && Fresh(LastAfter(before), a.r.msg.streamId, a.r.msg.seqNo)
      then [Attempt(a.r.msg, Session(before))] else []
  }

  /** Within a session the ticks of a stream increase. */
  ghost predicate Increase(attempts: seq<Attempt>) {
    forall i, j :: 0 <= i < j < |attempts| ==> InOrder(attempts[i], attempts[j])
  }

  predicate InOrder(a: Attempt, b: Attempt) {
    a.session == b.session && a.tick.streamId == b.tick.streamId ==> a.tick.seqNo < b.tick.seqNo
  }

  /** No attempt is ahead of the current session or of the last number of its stream. */
  ghost predicate UpTo(attempts: seq<Attempt>, last: map<U32, U64>, session: nat) {
    forall i :: 0 <= i < |attempts| ==>
      && attempts[i].session <= session
      && (attempts[i].session == session ==>
            attempts[i].tick.streamId in last && attempts[i].tick.seqNo <= last[attempts[i].tick.streamId])
  }

  lemma FreshIncreases(attempts: seq<Attempt>, last: map<U32, U64>, session: nat, tick: Message)
    requires Increase(attempts) && UpTo(attempts, last, session) && Fresh(last, tick.streamId, tick.seqNo)
    ensures Increase(attempts + [Attempt(tick, session)])
    ensures UpTo(attempts + [Attempt(tick, session)], last[tick.streamId := tick.seqNo], session)
  {
  }

  lemma LastOnlyGrows(attempts: seq<Attempt>, last: map<U32, U64>, session: nat, id: U32, s: U64)
    requires UpTo(attempts, last, session)
    ensures UpTo(attempts, LastWith(last, id, s), session)
  {
  }

  lemma {:induction false} AttemptsIncrease(arrivals: seq<Arrival>)
    ensures Increase(Attempts(arrivals))
    ensures UpTo(Attempts(arrivals), LastAfter(arrivals), Session(arrivals))
  {
    if arrivals != [] {
      var before, a := arrivals[..|arrivals| - 1], arrivals[|arrivals| - 1];
      AttemptsIncrease(before);
      var attempts, last, session := Attempts(before), LastAfter(before), Session(before);
      assert attempts + [] == attempts;
      match a {
        case Parsed(Ok(m)) =>
          if Fresh(last, m.streamId, m.seqNo) { FreshIncreases(attempts, last, session, m); }
        case Parsed(Heartbeat(id, s)) => LastOnlyGrows(attempts, last, session, id, s);
        case _ =>
      }
    }
  }

  /** The stream and the number an arrival brings, if it brings one. */
  function Brought(a: Arrival): Option<(U32, U64)> {
    match a
    case Parsed(Ok(m)) => Some((m.streamId, m.seqNo))
    case Parsed(Heartbeat(id, s)) => Some((id, s))
    case _ => None
  }

  predicate NoReconnect(arrivals: seq<Arrival>, from: nat) {
    forall i :: from <= i < |arrivals| ==> !arrivals[i].Reconnected?
  }

  /** `s` is larger than every number the stream has brought, as a tick or as a heartbeat,
      since the last reconnect. */
  predicate LargerThanAll(arrivals: seq<Arrival>, id: U32, s: U64) {
    forall j :: 0 <= j < |arrivals| && NoReconnect(arrivals, j) ==> Below(arrivals[j], id, s)
  }

  predicate Below(a: Arrival, id: U32, s: U64) {
    Brought(a).Some? && Brought(a).value.0 == id ==> Brought(a).value.1 < s
  }

  lemma OneMoreBelow(before: seq<Arrival>, a: Arrival, id: U32, s: U64)
    ensures LargerThanAll(before + [a], id, s) <==> a.Reconnected? || (LargerThanAll(before, id, s) && Below(a, id, s))
  {
    var arrivals, k := before + [a], |before|;
    assert arrivals[k] == a;
    forall j | 0 <= j < k
      ensures arrivals[j] == before[j] && (NoReconnect(arrivals, j) <==> NoReconnect(before, j) && !a.Reconnected?)
    {
      assert forall i :: j <= i < k ==> before[i] == arrivals[i];
    }
    assert NoReconnect(arrivals, k) <==> !a.Reconnected?;
  }

  lemma FreshAfter(last: map<U32, U64>, a: Arrival, id: U32, s: U64)
    requires a.Parsed?
    ensures Fresh(LastSeen(last, a.r), id, s) <==> Fresh(last, id, s) && Below(a, id, s)
  {
  }

  /** That is what counts as fresh. */
  lemma {:induction false} FreshMeaning(arrivals: seq<Arrival>, id: U32, s: U64)
    ensures Fresh(LastAfter(arrivals), id, s) <==> LargerThanAll(arrivals, id, s)
  {
    if arrivals != [] {
      var k := |arrivals| - 1;
      FreshMeaning(arrivals[..k], id, s);
      OneMoreBelow(arrivals[..k], arrivals[k], id, s);
      assert arrivals[..k] + [arrivals[k]] == arrivals;
      if arrivals[k].Parsed? { FreshAfter(LastAfter(arrivals[..k]), arrivals[k], id, s); }
    }
  }

  /** Exactly the fresh ticks are attempted, in order and with the number of reconnects before. */
  lemma {:induction false} FreshTicksAreAttempted(arrivals: seq<Arrival>, k: nat)
    requires k < |arrivals|
    ensures var before, a := arrivals[..k], arrivals[k];
      if a.Parsed? && a.r.Ok? && Fresh(LastAfter(before), a.r.msg.streamId, a.r.msg.seqNo)
      then Attempts(before) + [Attempt(a.r.msg, Session(before))] <= Attempts(arrivals)
      else Attempts(arrivals[..k + 1]) == Attempts(before)
  {
    var n := |arrivals| - 1;
    if k < n {
      FreshTicksAreAttempted(arrivals[..n], k);
      assert arrivals[..n][..k] == arrivals[..k] && arrivals[..n][..k + 1] == arrivals[..k + 1];
    } else {
      assert arrivals[..k + 1] == arrivals;
    }
  }

  // ----- The ring between the threads -----

  /** A tick as the words of a payload. */
  function Words(m: Message): (ws: seq<int>)
    ensures |ws| == 4
  {
    [m.streamId, m.tsNs, m.value, m.seqNo]
  }

  /** The calls of a run are the first attempts of the handler, as far as the run goes. */
  ghost predicate Feeds(arrivals: seq<Arrival>, called: seq<SpscProtocol.Item>) {
    && |called| <= |Attempts(arrivals)|
    && forall i :: 0 <= i < |called| ==> called[i] == Words(Attempts(arrivals)[i].tick)
  }

  /** Whatever the interleaving, and whichever pushes a full ring refuses: what is popped are
      ticks the handler accepted, whole, each once and in the order of their arrival, and so
      within a session the popped ticks of a stream strictly increase. */
  lemma ConcurrentTicksIncrease(ring: SpscProtocol.Ring, es: seq<SpscProtocol.Event>, arrivals: seq<Arrival>)
    requires ring.WellFormed() && ring.Exec(es).Some? && Feeds(arrivals, SpscProtocol.Ring.Called(es))
    ensures var popped, attempts := ring.Exec(es).value.popped, Attempts(arrivals);
      var calls := SpscProtocol.Ring.PublishedCalls(es);
      && |popped| <= |calls|
      && (forall i :: 0 <= i < |popped| ==>
            0 <= calls[i] < |attempts| && popped[i] == Words(attempts[calls[i]].tick))
      && (forall i, j :: 0 <= i < j < |popped| ==>
            calls[i] < calls[j] && InOrder(attempts[calls[i]], attempts[calls[j]]))
  {
    ring.RunsAreSafe(es);
    ring.PushesAreCalls(es);
    AttemptsIncrease(arrivals);
    var s, calls := ring.Exec(es).value, SpscProtocol.Ring.PublishedCalls(es);
    forall i | 0 <= i < |s.popped|
      ensures 0 <= calls[i] < |Attempts(arrivals)| && s.popped[i] == Words(Attempts(arrivals)[calls[i]].tick)
    {
      assert s.popped[i] == s.pushed[i];
    }
  }
}
