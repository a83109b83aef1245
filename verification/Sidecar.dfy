/** The delivery sidecar as a whole: posts, retries and counters interleaved in any order. */
module Sidecar {
  import D = Dedupe
  import opened Dispatcher

  datatype Config = Config(subscribers: nat, maxAttempts: nat, dedupeMax: nat) {
    predicate Valid() { maxAttempts >= 1 && dedupeMax >= 1 }
  }

  /** Where a delivery goroutine is with its current subscriber. */
  datatype Phase =
    | Top(attempt: nat)       // at the head of the retry loop
    | Waiting(attempt: nat)   // backing off before an attempt
    | Sending(attempt: nat)
    | InFlight(attempt: nat)
    | Won(requests: nat)
    | Lost(requests: nat, cancelled: bool)
    | Writing(requests: nat, cancelled: bool)  // counted as dead, record not yet written

  /** Where an accepted alert is: remembered, counted, or being delivered. */
  datatype Stage = Checked | Counted | Running(sub: nat, phase: Phase)

  /** `results` are the outcomes at subscribers 0, 1, ... */
  datatype Alert<K> = Alert(key: K, stage: Stage, results: seq<Result>)

  datatype Letter = Letter(alert: nat, sub: nat, attempts: nat)

  datatype Request = Request(alert: nat, sub: nat)

  datatype Input = Go | Cancelled | Arrived(reply: Reply)

  /** A step of a handler, or of the delivery of alert `k`. */
  datatype Event<K, V> =
    | Post(key: K, id: V)
    | MarkDuplicate
    | MarkAccepted(k: nat)
    | Spawn(k: nat)
    | Advance(k: nat, input: Input)

  // ----- One delivery -----

  predicate PhaseTakes(phase: Phase, input: Input) {
    match phase
    case Waiting(_) => input.Go? || input.Cancelled?
    case InFlight(_) => input.Arrived?
    case _ => input.Go?
  }

  /** The phase after one step at the same subscriber. */
  function NextPhase(cfg: Config, phase: Phase, input: Input): Phase
    requires PhaseTakes(phase, input) && !phase.Won? && !phase.Writing?
  {
    match phase
    case Top(a) =>
      if a >= cfg.maxAttempts then Lost(cfg.maxAttempts, false) else if a > 0 then Waiting(a) else Sending(a)
    case Waiting(a) => if input.Cancelled? then Lost(a, true) else Sending(a)
    case Sending(a) => InFlight(a)
    case InFlight(a) =>
      if input.reply.Success() then Won(a + 1) else if input.reply.Retryable() then Top(a + 1) else Lost(a + 1, false)
    case Lost(n, c) => Writing(n, c)
  }

  predicate PhaseOk(cfg: Config, phase: Phase) {
    match phase
    case Top(a) => a <= cfg.maxAttempts
    case Waiting(a) => 0 < a < cfg.maxAttempts
    case Sending(a) => a < cfg.maxAttempts
    case InFlight(a) => a < cfg.maxAttempts
    case Won(n) => 1 <= n <= cfg.maxAttempts
    case Lost(n, c) => 1 <= n <= cfg.maxAttempts
    case Writing(n, c) => 1 <= n <= cfg.maxAttempts
  }

  /** Requests made to the current subscriber. */
  function PhaseRequests(phase: Phase): nat {
    match phase
    case Top(a) => a
    case Waiting(a) => a
    case Sending(a) => a
    case InFlight(a) => a + 1
    case Won(n) => n
    case Lost(n, _) => n
    case Writing(n, _) => n
  }

  // ----- One accepted alert -----

  function StepAlert<K>(cfg: Config, alert: Alert<K>, input: Input): Alert<K>
    requires alert.stage.Running? && PhaseTakes(alert.stage.phase, input)
  {
    var Running(sub, phase) := alert.stage;
    if phase.Won? || phase.Writing? then
      alert.(stage := Running(sub + 1, Top(0)),
             results := alert.results + [Result(phase.Won?, phase.requests, phase.Writing? && phase.cancelled)])
    else alert.(stage := Running(sub, NextPhase(cfg, phase, input)))
  }

  predicate AlertOk<K>(cfg: Config, alert: Alert<K>) {
    && (forall s :: 0 <= s < |alert.results| ==> 1 <= alert.results[s].requests <= cfg.maxAttempts)
    && match alert.stage
       case Running(sub, phase) =>
         |alert.results| == sub <= cfg.subscribers && PhaseOk(cfg, phase)
          && (sub == cfg.subscribers ==> phase == Top(0))
       case _ => alert.results == []
  }

  lemma StepAlertOk<K>(cfg: Config, alert: Alert<K>, input: Input)
    requires cfg.Valid() && AlertOk(cfg, alert) && alert.stage.Running? && alert.stage.sub < cfg.subscribers
    requires PhaseTakes(alert.stage.phase, input)
    ensures AlertOk(cfg, StepAlert(cfg, alert, input))
  {
  }

  /** Requests an alert has caused at subscriber `s`. */
  function RequestsAt<K>(alert: Alert<K>, s: nat): nat {
    if s < |alert.results| then alert.results[s].requests
    else if alert.stage.Running? && alert.stage.sub == s then PhaseRequests(alert.stage.phase)
    else 0
  }

  // ----- What the counters count -----

  function CountIf(b: bool): nat { if b then 1 else 0 }

  function AcceptedOf<K>(alert: Alert<K>): int { CountIf(!alert.stage.Checked?) }

  function DeliveredOf<K>(alert: Alert<K>): int { Successes(alert.results) }

  /** Dead deliveries, one of them perhaps not yet written down. */
  function DeadOf<K>(alert: Alert<K>): int {
    |alert.results| - Successes(alert.results) + CountIf(alert.stage.Running? && alert.stage.phase.Writing?)
  }

  function Sum<K>(alerts: seq<Alert<K>>, f: Alert<K> -> int): int {
    if alerts == [] then 0 else Sum(alerts[..|alerts| - 1], f) + f(alerts[|alerts| - 1])
  }

  lemma {:induction false} SumChanges<K>(alerts: seq<Alert<K>>, k: nat, x: Alert<K>, f: Alert<K> -> int)
    requires k < |alerts|
    ensures Sum(alerts[k := x], f) == Sum(alerts, f) - f(alerts[k]) + f(x)
  {
    var n := |alerts| - 1;
    if k < n {
      SumChanges(alerts[..n], k, x, f);
      assert alerts[k := x][..n] == alerts[..n][k := x];
    } else {
      assert alerts[k := x][..n] == alerts[..n];
    }
  }

  lemma SumGrows<K>(alerts: seq<Alert<K>>, x: Alert<K>, f: Alert<K> -> int)
    ensures Sum(alerts + [x], f) == Sum(alerts, f) + f(x)
  {
    assert (alerts + [x])[..|alerts|] == alerts;
  }

  // ----- The sidecar -----

  /** Everything shared: the dedupe log, the alerts it let in, the counters, the dead-letter
      file and the requests made. */
  datatype Sidecar<K(==,!new), V(!new)> = Sidecar(
    log: seq<D.Entry<K, V>>, alerts: seq<Alert<K>>, duplicatesPending: nat,
    accepted: nat, duplicate: nat, delivered: nat, deadLettered: nat,
    letters: seq<Letter>, sent: seq<Request>)
  {
    ghost predicate Enabled(cfg: Config, e: Event<K, V>) {
      match e
      case Post(_, _) => true
      case MarkDuplicate => duplicatesPending > 0
      case MarkAccepted(k) => k < |alerts| && alerts[k].stage.Checked?
      case Spawn(k) => k < |alerts| && alerts[k].stage.Counted?
      case Advance(k, input) =>
        && k < |alerts| && alerts[k].stage.Running? && alerts[k].stage.sub < cfg.subscribers
        && PhaseTakes(alerts[k].stage.phase, input)
    }

    /** One atomic step of a handler or of a delivery. */
    ghost function Step(cfg: Config, e: Event<K, V>): Sidecar<K, V>
      requires Enabled(cfg, e)
    {
      match e
      case Post(key, id) =>
        if D.Remembers(log, cfg.dedupeMax, key) then this.(duplicatesPending := duplicatesPending + 1)
        else this.(log := log + [D.Entry(key, id)], alerts := alerts + [Alert(key, Checked, [])])
      case MarkDuplicate => this.(duplicatesPending := duplicatesPending - 1, duplicate := duplicate + 1)
      case MarkAccepted(k) => this.(alerts := alerts[k := alerts[k].(stage := Counted)], accepted := accepted + 1)
      case Spawn(k) => this.(alerts := alerts[k := alerts[k].(stage := Running(0, Top(0)))])
      case Advance(k, input) =>
        var Running(sub, phase) := alerts[k].stage;
        this.(alerts := alerts[k := StepAlert(cfg, alerts[k], input)],
              delivered := delivered + CountIf(phase.Won?),
              deadLettered := deadLettered + CountIf(phase.Lost?),
              letters := if phase.Writing? then letters + [Letter(k, sub, phase.requests)] else letters,
              sent := if phase.Sending? then sent + [Request(k, sub)] else sent)
    }

    ghost predicate CanRun(cfg: Config, run: seq<Event<K, V>>)
      decreases |run|
    {
      run == [] || (Enabled(cfg, run[0]) && Step(cfg, run[0]).CanRun(cfg, run[1..]))
    }

    ghost function Run(cfg: Config, run: seq<Event<K, V>>): Sidecar<K, V>
      requires CanRun(cfg, run)
      decreases |run|
    {
      if run == [] then this else Step(cfg, run[0]).Run(cfg, run[1..])
    }

    ghost predicate AlertsOk(cfg: Config) {
      forall k :: 0 <= k < |alerts| ==> AlertOk(cfg, alerts[k])
    }

    ghost predicate CountersOk() {
      && accepted == Sum(alerts, AcceptedOf)
      && delivered == Sum(alerts, DeliveredOf)
      && deadLettered == Sum(alerts, DeadOf)
    }

    /** Requests on the wire, and records in the file, are those of the results. */
    ghost predicate TracesOk() {
      && (forall k: nat, s: nat :: Requests(k, s) == if k < |alerts| then RequestsAt(alerts[k], s) else 0)
      && (forall k: nat, s: nat, n: nat :: Letters(k, s, n) == CountIf(k < |alerts| && DiedAfter(alerts[k], s, n)))
    }

    ghost function Requests(k: nat, s: nat): nat { multiset(sent)[Request(k, s)] }

    ghost function Letters(k: nat, s: nat, n: nat): nat { multiset(letters)[Letter(k, s, n)] }

    ghost predicate KeysOk(cfg: Config) {
      && |log| == |alerts|
      && (forall k :: 0 <= k < |log| ==> log[k].key == alerts[k].key)
      && D.Spread(log, cfg.dedupeMax)
    }

    ghost predicate Inv(cfg: Config) {
      AlertsOk(cfg) && CountersOk() && TracesOk() && KeysOk(cfg)
    }

    lemma CountersStep(cfg: Config, e: Event<K, V>)
      requires AlertsOk(cfg) && CountersOk() && Enabled(cfg, e)
      ensures Step(cfg, e).CountersOk()
    {
      match e
      case Post(key, id) => AllSumsGrow(Alert(key, Checked, []));
      case MarkDuplicate =>
      case MarkAccepted(k) => AllSumsChange(k, alerts[k].(stage := Counted));
      case Spawn(k) => AllSumsChange(k, alerts[k].(stage := Running(0, Top(0))));
      case Advance(k, input) =>
        AllSumsChange(k, StepAlert(cfg, alerts[k], input));
        StepCounts(cfg, alerts[k], input);
    }

    lemma AllSumsGrow(x: Alert<K>)
      requires x.stage.Checked? && x.results == []
      ensures Sum(alerts + [x], AcceptedOf) == Sum(alerts, AcceptedOf)
      ensures Sum(alerts + [x], DeliveredOf) == Sum(alerts, DeliveredOf)
      ensures Sum(alerts + [x], DeadOf) == Sum(alerts, DeadOf)
    {
      SumGrows(alerts, x, AcceptedOf);
      SumGrows(alerts, x, DeliveredOf);
      SumGrows(alerts, x, DeadOf);
    }

    lemma AllSumsChange(k: nat, x: Alert<K>)
      requires k < |alerts|
      ensures Sum(alerts[k := x], AcceptedOf) == Sum(alerts, AcceptedOf) - AcceptedOf(alerts[k]) + AcceptedOf(x)
      ensures Sum(alerts[k := x], DeliveredOf) == Sum(alerts, DeliveredOf) - DeliveredOf(alerts[k]) + DeliveredOf(x)
      ensures Sum(alerts[k := x], DeadOf) == Sum(alerts, DeadOf) - DeadOf(alerts[k]) + DeadOf(x)
    {
      SumChanges(alerts, k, x, AcceptedOf);
      SumChanges(alerts, k, x, DeliveredOf);
      SumChanges(alerts, k, x, DeadOf);
    }

    lemma TracesStep(cfg: Config, e: Event<K, V>)
      requires AlertsOk(cfg) && TracesOk() && Enabled(cfg, e)
      ensures Step(cfg, e).TracesOk()
    {
      var after := Step(cfg, e);
      forall k: nat, s: nat
        ensures after.Requests(k, s) == if k < |after.alerts| then RequestsAt(after.alerts[k], s) else 0
      {
        RequestsStep(cfg, e, k, s);
      }
      forall k: nat, s: nat, n: nat
        ensures after.Letters(k, s, n) == CountIf(k < |after.alerts| && DiedAfter(after.alerts[k], s, n))
      {
        LettersStep(cfg, e, k, s, n);
      }
    }

    lemma RequestsStep(cfg: Config, e: Event<K, V>, k: nat, s: nat)
      requires AlertsOk(cfg) && Enabled(cfg, e)
      requires Requests(k, s) == if k < |alerts| then RequestsAt(alerts[k], s) else 0
      ensures var after := Step(cfg, e);
        after.Requests(k, s) == if k < |after.alerts| then RequestsAt(after.alerts[k], s) else 0
    {
      if e.Advance? { StepTraces(cfg, alerts[e.k], e.input, s, 0); }
    }

    lemma LettersStep(cfg: Config, e: Event<K, V>, k: nat, s: nat, n: nat)
      requires AlertsOk(cfg) && Enabled(cfg, e)
      requires Letters(k, s, n) == CountIf(k < |alerts| && DiedAfter(alerts[k], s, n))
      ensures var after := Step(cfg, e);
        after.Letters(k, s, n) == CountIf(k < |after.alerts| && DiedAfter(after.alerts[k], s, n))
    {
      if e.Advance? { StepTraces(cfg, alerts[e.k], e.input, s, n); }
    }

    lemma KeysStep(cfg: Config, e: Event<K, V>)
      requires KeysOk(cfg) && Enabled(cfg, e)
      ensures Step(cfg, e).KeysOk(cfg)
    {
      if e.Post? && !D.Remembers(log, cfg.dedupeMax, e.key) {
        D.AcceptKeepsSpread(log, cfg.dedupeMax, D.Entry(e.key, e.id));
      }
    }

    /** A post whose key none of the last `dedupeMax` accepted alerts carries is accepted and
        nothing else; any other is a duplicate and nothing else. */
    lemma PostMeaning(cfg: Config, key: K, id: V)
      requires KeysOk(cfg)
      ensures var after := Step(cfg, Post(key, id));
        var known := exists i :: 0 <= i < |alerts| && |alerts| - cfg.dedupeMax <= i && alerts[i].key == key;
        && after.alerts == (if known then alerts else alerts + [Alert(key, Checked, [])])
        && after.duplicatesPending == duplicatesPending + CountIf(known)
        && after.accepted == accepted && after.duplicate == duplicate && after.delivered == delivered
        && after.deadLettered == deadLettered && after.letters == letters && after.sent == sent
    {
      if i :| 0 <= i < |alerts| && |alerts| - cfg.dedupeMax <= i && alerts[i].key == key {
        assert log[i].key == key;
        assert D.Remembers(log, cfg.dedupeMax, key);
      }
      if D.Remembers(log, cfg.dedupeMax, key) {
        var i :| |log| - D.Kept(|log|, cfg.dedupeMax) <= i < |log| && log[i].key == key;
        assert alerts[i].key == key;
      }
    }

    static function Posts(run: seq<Event<K, V>>): nat {
      if run == [] then 0 else CountIf(run[0].Post?) + Posts(run[1..])
    }

    /** Every post is an alert or a duplicate, counted or about to be, and never both. */
    lemma {:induction false} PostsAreAnswered(cfg: Config, run: seq<Event<K, V>>)
      requires CanRun(cfg, run)
      ensures var w := Run(cfg, run);
        |w.alerts| + w.duplicate + w.duplicatesPending == |alerts| + duplicate + duplicatesPending + Posts(run)
      decreases |run|
    {
      if run != [] {
        Step(cfg, run[0]).PostsAreAnswered(cfg, run[1..]);
      }
    }

    lemma AlertsStep(cfg: Config, e: Event<K, V>)
      requires cfg.Valid() && AlertsOk(cfg) && Enabled(cfg, e)
      ensures Step(cfg, e).AlertsOk(cfg)
    {
      if e.Advance? {
        StepAlertOk(cfg, alerts[e.k], e.input);
      }
    }

    lemma {:induction false} RunsKeepInv(cfg: Config, run: seq<Event<K, V>>)
      requires cfg.Valid() && Inv(cfg) && CanRun(cfg, run)
      ensures Run(cfg, run).Inv(cfg)
      decreases |run|
    {
      if run != [] {
        AlertsStep(cfg, run[0]);
        CountersStep(cfg, run[0]);
        TracesStep(cfg, run[0]);
        KeysStep(cfg, run[0]);
        Step(cfg, run[0]).RunsKeepInv(cfg, run[1..]);
      }
    }

    /** A result once reached is never changed. */
    lemma ResultsAreFinal(cfg: Config, e: Event<K, V>, k: nat)
      requires Enabled(cfg, e) && k < |alerts|
      ensures k < |Step(cfg, e).alerts| && alerts[k].results <= Step(cfg, e).alerts[k].results
      ensures Step(cfg, e).alerts[k].key == alerts[k].key
    {
    }

    /** How many steps are left if nothing more is posted, at most. */
    ghost function Work(cfg: Config): int {
      duplicatesPending + Sum(alerts, WorkOf(cfg))
    }

    /** Every step but a post brings the end nearer, whatever the subscribers answer. */
    lemma WorkDecreases(cfg: Config, e: Event<K, V>)
      requires cfg.Valid() && AlertsOk(cfg) && Enabled(cfg, e) && !e.Post?
      ensures Step(cfg, e).Work(cfg) < Work(cfg)
    {
      match e
      case MarkDuplicate =>
      case MarkAccepted(k) => SumChanges(alerts, k, alerts[k].(stage := Counted), WorkOf(cfg));
      case Spawn(k) => SumChanges(alerts, k, alerts[k].(stage := Running(0, Top(0))), WorkOf(cfg));
      case Advance(k, input) =>
        SumChanges(alerts, k, StepAlert(cfg, alerts[k], input), WorkOf(cfg));
        StepWork(cfg, alerts[k], input);
    }

    /** Some step is possible until everything has settled. */
    lemma QuietOrEnabled(cfg: Config)
      requires AlertsOk(cfg)
      ensures Quiet(cfg) || exists e: Event<K, V> :: !e.Post? && Enabled(cfg, e)
    {
      if duplicatesPending > 0 {
        assert Enabled(cfg, MarkDuplicate);
      } else if k :| 0 <= k < |alerts| && !(alerts[k].stage.Running? && alerts[k].stage.sub == cfg.subscribers) {
        match alerts[k].stage
        case Checked => assert Enabled(cfg, MarkAccepted(k));
        case Counted => assert Enabled(cfg, Spawn(k));
        case Running(sub, phase) =>
          var input := if phase.InFlight? then Arrived(Failed(true)) else Go;
          assert Enabled(cfg, Advance(k, input));
      }
    }

    /** A run without posts is no longer than the work there was, so everything settles. */
    lemma {:induction false} SettlesWithin(cfg: Config, run: seq<Event<K, V>>)
      requires cfg.Valid() && AlertsOk(cfg) && CanRun(cfg, run) && forall i :: 0 <= i < |run| ==> !run[i].Post?
      ensures |run| <= Work(cfg)
      decreases |run|
    {
      if run == [] {
        WorkIsNat(cfg, alerts);
      } else {
        WorkDecreases(cfg, run[0]);
        AlertsStep(cfg, run[0]);
        Step(cfg, run[0]).SettlesWithin(cfg, run[1..]);
      }
    }

    /** Subscribers and clocks decide every input. */
    ghost predicate Obeys(cfg: Config, worlds: Worlds, run: seq<Event<K, V>>)
      requires CanRun(cfg, run)
      decreases |run|
    {
      run == [] ||
      ((run[0].Advance? ==>
          var Running(sub, phase) := alerts[run[0].k].stage;
          run[0].input == Reaction(worlds(run[0].k, sub), phase))
       && Step(cfg, run[0]).Obeys(cfg, worlds, run[1..]))
    }

    ghost predicate AllFollow(cfg: Config, worlds: Worlds) {
      forall k :: 0 <= k < |alerts| ==> Follows(cfg, worlds, k, alerts[k])
    }

    /** However the steps of other deliveries fall between its own, each delivery ends as it
        would have alone. */
    lemma {:induction false} RunsFollow(cfg: Config, worlds: Worlds, run: seq<Event<K, V>>)
      requires cfg.Valid() && AlertsOk(cfg) && AllFollow(cfg, worlds) && CanRun(cfg, run) && Obeys(cfg, worlds, run)
      ensures Run(cfg, run).AllFollow(cfg, worlds)
      decreases |run|
    {
      if run != [] {
        AlertsStep(cfg, run[0]);
        if run[0].Advance? {
          AlertFollows(cfg, worlds, run[0].k, alerts[run[0].k]);
        }
        Step(cfg, run[0]).RunsFollow(cfg, worlds, run[1..]);
      }
    }

    /** Nothing is in progress any more. */
    ghost predicate Quiet(cfg: Config) {
      duplicatesPending == 0
      && forall k :: 0 <= k < |alerts| ==> alerts[k].stage.Running? && alerts[k].stage.sub == cfg.subscribers
    }
  }

  // ----- Deliveries in a given world -----

  /** How each subscriber and clock behaves, by alert and subscriber. */
  type Worlds = (nat, nat) -> World

  /** The input a delivery gets next. */
  function Reaction(w: World, phase: Phase): Input {
    match phase
    case Waiting(a) => if w.endsBefore(a) then Cancelled else Go
    case InFlight(a) => Arrived(w.reply(a))
    case _ => Go
  }

  /** `n` attempts have failed and were worth repeating. */
  ghost predicate Retried(w: World, n: nat) {
    && (forall i :: 0 <= i < n ==> w.reply(i).Retryable())
    && (forall i :: 0 < i < n ==> !w.endsBefore(i))
  }

  /** How far the delivery in this world has come. */
  ghost predicate SoFar(cfg: Config, w: World, phase: Phase) {
    match phase
    case Top(a) => Retried(w, a)
    case Waiting(a) => Retried(w, a)
    case Sending(a) => Retried(w, a) && (a > 0 ==> !w.endsBefore(a))
    case InFlight(a) => Retried(w, a) && (a > 0 ==> !w.endsBefore(a))
    case Won(n) => Explains(w, cfg.maxAttempts, Result(true, n, false))
    case Lost(n, c) => Explains(w, cfg.maxAttempts, Result(false, n, c))
    case Writing(n, c) => Explains(w, cfg.maxAttempts, Result(false, n, c))
  }

  lemma PhaseFollows(cfg: Config, w: World, phase: Phase)
    requires cfg.Valid() && PhaseOk(cfg, phase) && SoFar(cfg, w, phase) && !phase.Won? && !phase.Writing?
    ensures PhaseTakes(phase, Reaction(w, phase)) && SoFar(cfg, w, NextPhase(cfg, phase, Reaction(w, phase)))
  {
  }

  /** Its results so far are those `DeliverOne` promises in its worlds. */
  ghost predicate Follows<K>(cfg: Config, worlds: Worlds, k: nat, alert: Alert<K>) {
    && (forall s :: 0 <= s < |alert.results| ==> Explains(worlds(k, s), cfg.maxAttempts, alert.results[s]))
    && (alert.stage.Running? ==> SoFar(cfg, worlds(k, alert.stage.sub), alert.stage.phase))
  }

  lemma AlertFollows<K>(cfg: Config, worlds: Worlds, k: nat, alert: Alert<K>)
    requires cfg.Valid() && AlertOk(cfg, alert) && Follows(cfg, worlds, k, alert)
    requires alert.stage.Running? && alert.stage.sub < cfg.subscribers
    ensures var Running(sub, phase) := alert.stage;
      && PhaseTakes(phase, Reaction(worlds(k, sub), phase))
      && Follows(cfg, worlds, k, StepAlert(cfg, alert, Reaction(worlds(k, sub), phase)))
  {
    var Running(sub, phase) := alert.stage;
    if !phase.Won? && !phase.Writing? {
      PhaseFollows(cfg, worlds(k, sub), phase);
    }
  }

  // ----- Work left -----

  function PhaseWork(cfg: Config, phase: Phase): int {
    match phase
    case Top(a) => 4 * (cfg.maxAttempts - a) + 3
    case Waiting(a) => 4 * (cfg.maxAttempts - a) + 2
    case Sending(a) => 4 * (cfg.maxAttempts - a) + 1
    case InFlight(a) => 4 * (cfg.maxAttempts - a)
    case Won(_) => 1
    case Lost(_, _) => 2
    case Writing(_, _) => 1
  }

  function SubscribersWork(cfg: Config, n: int): nat {
    if n <= 0 then 0 else 4 * cfg.maxAttempts + 4 + SubscribersWork(cfg, n - 1)
  }

  function AlertWork<K>(cfg: Config, alert: Alert<K>): int {
    match alert.stage
    case Checked => SubscribersWork(cfg, cfg.subscribers) + 2
    case Counted => SubscribersWork(cfg, cfg.subscribers) + 1
    case Running(sub, phase) =>
      if sub >= cfg.subscribers then 0 else SubscribersWork(cfg, cfg.subscribers - sub - 1) + PhaseWork(cfg, phase)
  }

  function WorkOf<K>(cfg: Config): Alert<K> -> int { (alert: Alert<K>) => AlertWork(cfg, alert) }

  lemma StepWork<K>(cfg: Config, alert: Alert<K>, input: Input)
    requires cfg.Valid() && AlertOk(cfg, alert) && alert.stage.Running? && alert.stage.sub < cfg.subscribers
    requires PhaseTakes(alert.stage.phase, input)
    ensures AlertWork(cfg, StepAlert(cfg, alert, input)) < AlertWork(cfg, alert)
  {
  }

  lemma {:induction false} WorkIsNat<K>(cfg: Config, alerts: seq<Alert<K>>)
    requires forall k :: 0 <= k < |alerts| ==> AlertOk(cfg, alerts[k])
    ensures Sum(alerts, WorkOf(cfg)) >= 0
  {
    if alerts != [] {
      WorkIsNat(cfg, alerts[..|alerts| - 1]);
    }
  }

  predicate DiedAfter<K>(alert: Alert<K>, s: nat, n: nat) {
    s < |alert.results| && !alert.results[s].delivered && alert.results[s].requests == n
  }

  /** What one step of a delivery adds to the counters. */
  lemma StepCounts<K>(cfg: Config, alert: Alert<K>, input: Input)
    requires alert.stage.Running? && PhaseTakes(alert.stage.phase, input)
    ensures var after, phase := StepAlert(cfg, alert, input), alert.stage.phase;
      && AcceptedOf(after) == AcceptedOf(alert)
      && DeliveredOf(after) == DeliveredOf(alert) + CountIf(phase.Won?)
      && DeadOf(after) == DeadOf(alert) + CountIf(phase.Lost?)
  {
    var after := StepAlert(cfg, alert, input);
    if alert.stage.phase.Won? || alert.stage.phase.Writing? {
      assert after.results[..|alert.results|] == alert.results;
    }
  }

  /** What one step of a delivery adds to the requests and the letters of its alert. */
  lemma StepTraces<K>(cfg: Config, alert: Alert<K>, input: Input, s: nat, n: nat)
    requires AlertOk(cfg, alert) && alert.stage.Running? && PhaseTakes(alert.stage.phase, input)
    ensures var after, Running(sub, phase) := StepAlert(cfg, alert, input), alert.stage;
      && RequestsAt(after, s) == RequestsAt(alert, s) + CountIf(phase.Sending? && s == sub)
      && CountIf(DiedAfter(after, s, n))
         == CountIf(DiedAfter(alert, s, n)) + CountIf(phase.Writing? && s == sub && n == phase.requests)
  {
  }

  /** At a quiet point every counter is settled. */
  lemma {:induction false} QuietSums<K>(cfg: Config, alerts: seq<Alert<K>>)
    requires forall k :: 0 <= k < |alerts| ==>
      AlertOk(cfg, alerts[k]) && alerts[k].stage.Running? && alerts[k].stage.sub == cfg.subscribers
    ensures Sum(alerts, AcceptedOf) == |alerts|
    ensures Sum(alerts, DeliveredOf) + Sum(alerts, DeadOf) == |alerts| * cfg.subscribers
  {
    if alerts != [] {
      var n := |alerts| - 1;
      QuietSums(cfg, alerts[..n]);
      OneMore(n, cfg.subscribers);
    }
  }

  lemma OneMore(n: nat, m: nat)
    ensures (n + 1) * m == n * m + m
  {
  }

  function Start<K(==,!new), V(!new)>(): Sidecar<K, V> { Sidecar([], [], 0, 0, 0, 0, 0, [], []) }

  /** However posts, retries and timeouts interleave: once everything has settled, each pair of
      an accepted alert and a subscriber has one result, reached with 1 to MaxAttempts
      requests, with a dead letter carrying exactly that number if and only if it failed. */
  lemma EveryPairSettlesOnce<K(!new), V(!new)>(cfg: Config, run: seq<Event<K, V>>)
    requires cfg.Valid() && Start<K, V>().CanRun(cfg, run) && Start<K, V>().Run(cfg, run).Quiet(cfg)
    ensures var w := Start<K, V>().Run(cfg, run);
      && w.accepted == |w.alerts|
      && w.delivered + w.deadLettered == w.accepted * cfg.subscribers
      && forall k: nat, s: nat :: k < |w.alerts| && s < cfg.subscribers ==>
           && s < |w.alerts[k].results|
           && var r := w.alerts[k].results[s];
              && w.Requests(k, s) == r.requests && 1 <= r.requests <= cfg.maxAttempts
              && forall n: nat :: w.Letters(k, s, n) == CountIf(!r.delivered && n == r.requests)
  {
    StartOk<K, V>(cfg);
    Start<K, V>().RunsKeepInv(cfg, run);
    var w := Start<K, V>().Run(cfg, run);
    QuietSums(cfg, w.alerts);
  }

  /** So in any interleaving every result is the one its own subscriber and clock decide. */
  lemma InterleavingDoesNotMatter<K(!new), V(!new)>(cfg: Config, worlds: Worlds, run: seq<Event<K, V>>, k: nat, s: nat)
    requires cfg.Valid() && Start<K, V>().CanRun(cfg, run) && Start<K, V>().Obeys(cfg, worlds, run)
    requires k < |Start<K, V>().Run(cfg, run).alerts| && s < |Start<K, V>().Run(cfg, run).alerts[k].results|
    ensures Explains(worlds(k, s), cfg.maxAttempts, Start<K, V>().Run(cfg, run).alerts[k].results[s])
  {
    Start<K, V>().RunsFollow(cfg, worlds, run);
    assert Follows(cfg, worlds, k, Start<K, V>().Run(cfg, run).alerts[k]);
  }

  /** A key the dedupe memory still holds is never accepted, and so never dispatched, again. */
  lemma RetainedKeyIsNotDispatchedTwice<K(!new), V(!new)>(cfg: Config, run: seq<Event<K, V>>, i: nat, j: nat)
    requires cfg.Valid() && Start<K, V>().CanRun(cfg, run)
    requires i < j < |Start<K, V>().Run(cfg, run).alerts|
    requires Start<K, V>().Run(cfg, run).alerts[i].key == Start<K, V>().Run(cfg, run).alerts[j].key
    ensures j - i > cfg.dedupeMax
  {
    StartOk<K, V>(cfg);
    Start<K, V>().RunsKeepInv(cfg, run);
    var w := Start<K, V>().Run(cfg, run);
    assert w.log[i].key == w.log[j].key;
  }

  lemma StartOk<K(!new), V(!new)>(cfg: Config)
    ensures Start<K, V>().Inv(cfg)
  {
  }
}
