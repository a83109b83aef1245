/** Delivering one alert to every subscriber, with retries and dead letters. */
module Dispatcher {
  import opened Wrappers

  /** What comes back from one request. */
  datatype Reply = Responded(status: int) | Failed(contextDone: bool) {
    predicate Success() { Responded? && 200 <= status < 300 }

    /** Worth another attempt. */
    predicate Retryable() {
      match this
      case Responded(status) => !Success() && RetryableStatus(status)
      case Failed(contextDone) => !contextDone
    }
  }

  predicate RetryableStatus(status: int) { status == 429 || status >= 500 }

  /** How a subscriber and the clock behave during one delivery: the reply to each attempt,
      and whether the context ends during the wait before it. */
  datatype World = World(reply: nat -> Reply, endsBefore: nat -> bool)

  datatype Cause = ReplyCause(reply: Reply) | ContextEnded

  datatype DeadLetter<S, K> = DeadLetter(subscriber: S, key: K, attempts: nat, cause: Cause)

  /** What came of one delivery. */
  datatype Result = Result(delivered: bool, requests: nat, cancelledWaiting: bool)

  /** The delivery made exactly `requests` requests: all but the last were worth repeating,
      no wait between them was cut short, and there was a reason to stop. */
  ghost predicate Explains(w: World, maxAttempts: nat, r: Result) {
    && 1 <= r.requests <= maxAttempts
    && (forall i :: 0 <= i < r.requests - 1 ==> w.reply(i).Retryable())
    && (forall i :: 0 < i < r.requests ==> !w.endsBefore(i))
    && var last := w.reply(r.requests - 1);
       && (r.delivered <==> last.Success())
       && (r.cancelledWaiting <==> last.Retryable() && r.requests < maxAttempts)
       && (r.cancelledWaiting ==> w.endsBefore(r.requests))
  }

  /** Why a delivery that failed did. */
  function CauseOf(w: World, r: Result): Cause
    requires r.requests >= 1
  {
    if r.cancelledWaiting then ContextEnded else ReplyCause(w.reply(r.requests - 1))
  }

  /** The subscriber and the clock decide the result. */
  lemma OneResult(w: World, maxAttempts: nat, r: Result, r': Result)
    requires Explains(w, maxAttempts, r) && Explains(w, maxAttempts, r')
    ensures r == r'
  {
    NoneRunsLonger(w, maxAttempts, r, r');
    NoneRunsLonger(w, maxAttempts, r', r);
  }

  lemma NoneRunsLonger(w: World, maxAttempts: nat, r: Result, r': Result)
    requires Explains(w, maxAttempts, r) && Explains(w, maxAttempts, r')
    ensures r'.requests <= r.requests
  {
    var n := r.requests;
    assert w.reply(n - 1).Retryable() && n < maxAttempts ==> w.endsBefore(n);
  }

  /** The result in status numbers: requests before the last got 429 or a 5xx, or failed
      while the context lasted; delivered is any 2xx; a delivery that stops early without
      the context ending a wait got another status, or failed because the context is over. */
  lemma ResultInNumbers(w: World, maxAttempts: nat, r: Result)
    requires Explains(w, maxAttempts, r)
    ensures forall i :: 0 <= i < r.requests - 1 ==>
      match w.reply(i) {
        case Responded(status) => status == 429 || 500 <= status
        case Failed(contextDone) => !contextDone
      }
    ensures var last := w.reply(r.requests - 1);
      && (r.delivered <==> last.Responded? && 200 <= last.status <= 299)
      && (!r.delivered && !r.cancelledWaiting && r.requests < maxAttempts ==>
            match last {
              case Responded(status) => status < 200 || 300 <= status <= 428 || 430 <= status <= 499
              case Failed(contextDone) => contextDone
            })
      && (r.cancelledWaiting ==>
            match last {
              case Responded(status) => status == 429 || 500 <= status
              case Failed(contextDone) => !contextDone
            })
  {
  }

  /** Each result is the one its world explains. */
  ghost predicate AllExplained(ws: seq<World>, maxAttempts: nat, rs: seq<Result>) {
    |rs| <= |ws| && forall s :: 0 <= s < |rs| ==> Explains(ws[s], maxAttempts, rs[s])
  }

  class Dispatcher<S(!new), K(!new)> {
    const subscribers: seq<S>
    const maxAttempts: nat
    const writesDeadLetters: bool
    var delivered: nat
    var retried: nat
    var deadLettered: nat
    var records: seq<DeadLetter<S, K>>

    constructor (subscribers: seq<S>, maxAttempts: int, writesDeadLetters: bool)
      ensures this.subscribers == subscribers && this.writesDeadLetters == writesDeadLetters
      ensures this.maxAttempts == if maxAttempts < 1 then 1 else maxAttempts
      ensures delivered == retried == deadLettered == 0 && records == []
    {
      this.subscribers, this.writesDeadLetters := subscribers, writesDeadLetters;
      this.maxAttempts := if maxAttempts < 1 then 1 else maxAttempts;
      delivered, retried, deadLettered, records := 0, 0, 0, [];
    }

    method AddDeadLetter(url: S, key: K, attempts: nat, cause: Cause)
      modifies this`deadLettered, this`records
      ensures deadLettered == old(deadLettered) + 1
      ensures records == old(records) + if writesDeadLetters then [DeadLetter(url, key, attempts, cause)] else []
    {
      deadLettered := deadLettered + 1;
      if writesDeadLetters {
        records := records + [DeadLetter(url, key, attempts, cause)];
      }
    }

    /** Exactly one of delivered and dead-lettered; a dead letter counts the requests made. */
    method DeliverOne(w: World, url: S, key: K) returns (err: Option<Cause>, ghost r: Result)
      requires maxAttempts >= 1
      modifies this`delivered, this`retried, this`deadLettered, this`records
      ensures Explains(w, maxAttempts, r)
      ensures err == if r.delivered then None else Some(CauseOf(w, r))
      ensures delivered == old(delivered) + if r.delivered then 1 else 0
      ensures deadLettered == old(deadLettered) + if r.delivered then 0 else 1
      ensures retried == old(retried) + r.requests - 1 + if r.cancelledWaiting then 1 else 0
      ensures records == old(records) +
        if !r.delivered && writesDeadLetters then [DeadLetter(url, key, r.requests, CauseOf(w, r))] else []
    {
      var lastErr := ContextEnded;
      var attempt := 0;
      while attempt < maxAttempts
        invariant 0 <= attempt <= maxAttempts
        invariant forall i :: 0 <= i < attempt ==> w.reply(i).Retryable()
        invariant forall i :: 0 < i < attempt ==> !w.endsBefore(i)
        invariant attempt > 0 ==> lastErr == ReplyCause(w.reply(attempt - 1))
        invariant delivered == old(delivered) && deadLettered == old(deadLettered) && records == old(records)
        invariant retried == old(retried) + if attempt == 0 then 0 else attempt - 1
      {
        if attempt > 0 {
          retried := retried + 1;
          if w.endsBefore(attempt) {
            r := Result(false, attempt, true);
            AddDeadLetter(url, key, attempt, ContextEnded);
            return Some(ContextEnded), r;
          }
        }
        var reply := w.reply(attempt);
        lastErr := ReplyCause(reply);
        if reply.Success() {
          r := Result(true, attempt + 1, false);
          delivered := delivered + 1;
          return None, r;
        }
        if !reply.Retryable() {
          r := Result(false, attempt + 1, false);
          AddDeadLetter(url, key, attempt + 1, lastErr);
          return Some(lastErr), r;
        }
        attempt := attempt + 1;
      }
      r := Result(false, maxAttempts, false);
      AddDeadLetter(url, key, maxAttempts, lastErr);
      return Some(lastErr), r;
    }

    /** Every subscriber in turn; an error of one does not stop the next, and the first one
        is returned. */
    method Deliver(ws: seq<World>, key: K) returns (firstErr: Option<Cause>, ghost rs: seq<Result>)
      requires maxAttempts >= 1 && |ws| == |subscribers|
      modifies this`delivered, this`retried, this`deadLettered, this`records
      ensures |rs| == |subscribers| && AllExplained(ws, maxAttempts, rs)
      ensures delivered == old(delivered) + Successes(rs)
      ensures delivered + deadLettered == old(delivered + deadLettered) + |subscribers|
      ensures firstErr.None? <==> Successes(rs) == |subscribers|
      ensures IsFirstError(ws, rs, firstErr)
    {
      rs := [];
      firstErr := None;
      for s := 0 to |subscribers|
        invariant |rs| == s && AllExplained(ws, maxAttempts, rs)
        invariant delivered == old(delivered) + Successes(rs)
        invariant delivered + deadLettered == old(delivered + deadLettered) + s
        invariant IsFirstError(ws, rs, firstErr)
      {
        var err, r := DeliverOne(ws[s], subscribers[s], key);
        ExplainedGrows(ws, maxAttempts, rs, r);
        OneMoreResult(ws, rs, firstErr, r, err);
        rs := rs + [r];
        if err.Some? && firstErr.None? {
          firstErr := err;
        }
      }
      NoFailure(rs);
    }
  }

  /** The index of the first that failed, or how many there are. */
  function FirstFailure(rs: seq<Result>): (f: nat)
    ensures f <= |rs| && (f < |rs| ==> !rs[f].delivered)
    ensures forall i :: 0 <= i < f ==> rs[i].delivered
  {
    if rs == [] then 0
    else
      var n := |rs| - 1;
      var f := FirstFailure(rs[..n]);
      if f == n && rs[n].delivered then n + 1 else f
  }

  /** `err` is what made the first failure fail; everything before it was delivered. */
  predicate IsFirstError(ws: seq<World>, rs: seq<Result>, err: Option<Cause>) {
    var f := FirstFailure(rs);
    if f == |rs| then err == None
    else f < |ws| && rs[f].requests >= 1 && err == Some(CauseOf(ws[f], rs[f]))
  }

  lemma ExplainedGrows(ws: seq<World>, maxAttempts: nat, rs: seq<Result>, r: Result)
    requires |rs| < |ws| && AllExplained(ws, maxAttempts, rs) && Explains(ws[|rs|], maxAttempts, r)
    ensures AllExplained(ws, maxAttempts, rs + [r])
  {
    forall s | 0 <= s <= |rs| ensures Explains(ws[s], maxAttempts, (rs + [r])[s]) {
      if s < |rs| { assert Explains(ws[s], maxAttempts, rs[s]); }
    }
  }

  lemma OneMoreResult(ws: seq<World>, rs: seq<Result>, firstErr: Option<Cause>, r: Result, err: Option<Cause>)
    requires |rs| < |ws| && IsFirstError(ws, rs, firstErr) && r.requests >= 1
    requires err == if r.delivered then None else Some(CauseOf(ws[|rs|], r))
    ensures Successes(rs + [r]) == Successes(rs) + if r.delivered then 1 else 0
    ensures IsFirstError(ws, rs + [r], if err.Some? && firstErr.None? then err else firstErr)
  {
    assert (rs + [r])[..|rs|] == rs;
  }

  lemma {:induction false} NoFailure(rs: seq<Result>)
    ensures FirstFailure(rs) == |rs| <==> Successes(rs) == |rs|
  {
    if rs != [] { NoFailure(rs[..|rs| - 1]); }
  }

  /** How many of them delivered. */
  function Successes(rs: seq<Result>): (n: nat)
    ensures n <= |rs|
  {
    if rs == [] then 0 else Successes(rs[..|rs| - 1]) + if rs[|rs| - 1].delivered then 1 else 0
  }
}
