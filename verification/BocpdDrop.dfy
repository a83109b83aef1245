/** A stream on which `detect` reports a most probable run length that falls by less than half. */
module BocpdDrop {
  import opened Bocpd
  import opened BocpdExact

  /** A predictive density that is flat, but for a peak at 1 for the run of 30 samples. */
  function Peaked(s: Stats, x: real): real { if x == 1.0 && s.kappa == 31.0 then 1000.0 else 1.0 }

  /** The constructor's and `detect`'s defaults. */
  const EXAMPLE: Model := Model(Stats(0.0, 1.0, 1.0, 1.0), 0.004, 0.000001, Peaked)
  const DEFAULTS: Knobs := Knobs(0.5, 5, 10, 30)

  function Zeros(n: nat): (xs: seq<real>)
    ensures |xs| == n
  {
    seq(n, _ => 0.0)
  }

  lemma OneMoreZero(n: nat)
    ensures Zeros(n + 1) == Zeros(n) + [0.0]
  {
  }

  // ----- Entries that outweigh all others -----

  lemma {:induction false} TwoEntries(ps: seq<real>, i: nat, j: nat)
    requires i < |ps| && j < |ps| && i != j && AllPositive(ps)
    ensures ps[i] + ps[j] <= Total(ps)
  {
    var n := |ps| - 1;
    if i < n && j < n {
      TwoEntries(ps[..n], i, j);
    } else {
      OneEntry(ps[..n], if i < n then i else j);
    }
  }

  lemma {:induction false} OneEntry(ps: seq<real>, i: nat)
    requires i < |ps| && AllPositive(ps)
    ensures ps[i] <= Total(ps)
  {
    var n := |ps| - 1;
    if i < n {
      OneEntry(ps[..n], i);
    } else if n > 0 {
      TotalPositive(ps[..n]);
    }
  }

  /** What a selection leaves out is missing from its total. */
  lemma SelectMisses(ps: seq<real>, keep: seq<bool>, j: nat, e: real)
    requires |ps| == |keep| && j < |ps| && !keep[j] && AllPositive(ps) && e > 0.0
    ensures Total(Select(ps, keep)) + ps[j] <= Total(ps) + e
  {
    var qs := ps[j := e];
    assert Select(qs, keep) == Select(ps, keep);
    TotalChanges(qs, ps, j, ps[j] - e);
    SelectLosesMass(qs, keep);
  }

  /** A run length with more than half of the probability is the most probable one, and the
      shorter ones have less than half. */
  lemma Dominates(b: Belief, j: nat, window: int)
    requires Model.Sound(b) && Total(b.probs) == 1.0 && j < |b.probs| && b.probs[j] > 0.5
    ensures MapRunLength(b) == b.runs[j]
    ensures b.runs[j] > window ==> RecentMass(b, window) < 0.5
  {
    var top := ArgMax(b.probs);
    if top != j { TwoEntries(b.probs, top, j); }
    if b.runs[j] > window {
      SelectMisses(b.probs, seq(|b.runs|, i requires 0 <= i < |b.runs| => b.runs[i] <= window), j,
                   (b.probs[j] - 0.5) / 2.0);
    }
  }

  // ----- The belief after zeros -----

  /** The probability that `n` samples in a row end no run. */
  function Survival(n: nat): real { if n == 0 then 1.0 else 0.996 * Survival(n - 1) }

  lemma {:induction false} SurvivalBounds(n: nat)
    ensures 1.0 - 0.004 * n as real <= Survival(n) <= 1.0
  {
    if n > 0 { SurvivalBounds(n - 1); }
  }

  /** The samples say nothing, so run lengths are distributed as the hazard has it. */
  ghost predicate Plain(b: Belief, n: nat) {
    && Model.Sound(b) && Total(b.probs) == 1.0
    && Counting(b.runs) && Counted(b.stats) && PlainProbs(b.probs, n)
  }

  ghost predicate Counting(runs: seq<nat>) {
    forall i :: 0 <= i < |runs| ==> runs[i] == i
  }

  ghost predicate Counted(stats: seq<Stats>) {
    forall i :: 0 <= i < |stats| ==> stats[i].kappa == 1.0 + i as real
  }

  ghost predicate PlainProbs(probs: seq<real>, n: nat) {
    && |probs| == n + 1
    && forall i :: 0 <= i <= n ==> probs[i] == if i < n then 0.004 * Survival(i) else Survival(n)
  }

  lemma PlainBounds(b: Belief, n: nat)
    requires Plain(b, n) && n <= 61
    ensures forall i :: 0 <= i < n ==> 0.003 <= b.probs[i] <= 0.004
    ensures b.probs[n] >= 0.75
  {
    forall i | 0 <= i <= n ensures 1.0 - 0.004 * i as real <= Survival(i) <= 1.0 {
      SurvivalBounds(i);
    }
  }

  lemma ExampleIsValid()
    ensures EXAMPLE.Valid()
  {
    forall s: Stats, x: real | s.Proper() ensures EXAMPLE.pred(s, x) > 0.0 {
      assert EXAMPLE.pred(s, x) == Peaked(s, x);
    }
  }

  /** Observing keeps every run length as long as its probability is not too small. */
  lemma NothingIsCut(b: Belief, x: real)
    requires EXAMPLE.Valid() && Model.Sound(b)
    requires AtLeast(EXAMPLE.Posterior(b, x), 0.000001)
    ensures EXAMPLE.Observe(b, x) == Belief([0] + Model.Longer(b.runs), EXAMPLE.Posterior(b, x),
                                            [EXAMPLE.prior] + Model.Absorbed(b.stats, x))
    ensures Model.Sound(EXAMPLE.Observe(b, x)) && Total(EXAMPLE.Posterior(b, x)) == 1.0
  {
    ObserveKeepsAll(EXAMPLE, b, x);
    EXAMPLE.PosteriorIsDistribution(b, x);
    EXAMPLE.ObserveIsSound(b, x);
  }

  /** A flat density leaves the weights alone. */
  lemma FlatPosterior(b: Belief)
    requires EXAMPLE.Valid() && Model.Sound(b) && Total(b.probs) == 1.0
    ensures EXAMPLE.Posterior(b, 0.0) == [0.004] + Scaled(b.probs, 1.0 - 0.004)
  {
    var fit := EXAMPLE.Fit(b.stats, 0.0);
    assert Times(b.probs, fit) == b.probs;
    EXAMPLE.JointMass(b.probs, fit);
    DividedByOne(EXAMPLE.Joint(b.probs, fit));
  }

  ghost predicate AtLeast(ps: seq<real>, floor: real) {
    forall i :: 0 <= i < |ps| ==> ps[i] >= floor
  }

  lemma FlatStaysAbove(b: Belief, n: nat)
    requires Plain(b, n) && n <= 60
    ensures AtLeast([0.004] + Scaled(b.probs, 1.0 - 0.004), 0.000001)
  {
    PlainBounds(b, n);
    var scaled := Scaled(b.probs, 1.0 - 0.004);
    forall i | 0 <= i <= n ensures scaled[i] >= 0.000001 {
      assert scaled[i] == Product(b.probs[i], 1.0 - 0.004);
    }
  }

  lemma CountedGrows(stats: seq<Stats>, x: real)
    requires Counted(stats) && forall i :: 0 <= i < |stats| ==> stats[i].Proper()
    ensures Counted([EXAMPLE.prior] + Model.Absorbed(stats, x))
  {
    var next := [EXAMPLE.prior] + Model.Absorbed(stats, x);
    forall i | 0 < i < |next| ensures next[i].kappa == 1.0 + i as real {
      assert next[i] == Absorb(stats[i - 1], x);
    }
  }

  lemma PlainProbsGrow(probs: seq<real>, n: nat)
    requires PlainProbs(probs, n)
    ensures PlainProbs([0.004] + Scaled(probs, 1.0 - 0.004), n + 1)
  {
    var next := [0.004] + Scaled(probs, 1.0 - 0.004);
    forall i | 0 <= i <= n + 1 ensures next[i] == if i < n + 1 then 0.004 * Survival(i) else Survival(n + 1) {
      if i > 0 {
        assert next[i] == Product(probs[i - 1], 1.0 - 0.004);
        assert Survival(i) == 0.996 * Survival(i - 1);
      }
    }
  }

  lemma ZeroObserved(b: Belief, n: nat)
    requires EXAMPLE.Valid() && Plain(b, n) && n <= 60
    ensures var next := EXAMPLE.Observe(b, 0.0);
      && next == Belief([0] + Model.Longer(b.runs), [0.004] + Scaled(b.probs, 1.0 - 0.004),
                        [EXAMPLE.prior] + Model.Absorbed(b.stats, 0.0))
      && Model.Sound(next) && Total(next.probs) == 1.0
  {
    FlatPosterior(b);
    FlatStaysAbove(b, n);
    NothingIsCut(b, 0.0);
  }

  lemma PlainGrows(b: Belief, n: nat, probs: seq<real>, stats: seq<Stats>)
    requires Plain(b, n) && PlainProbs(probs, n + 1) && Counted(stats)
    requires var next := Belief([0] + Model.Longer(b.runs), probs, stats);
      Model.Sound(next) && Total(probs) == 1.0
    ensures Plain(Belief([0] + Model.Longer(b.runs), probs, stats), n + 1)
  {
  }

  lemma ZeroStep(b: Belief, n: nat)
    requires EXAMPLE.Valid() && Plain(b, n) && n <= 60
    ensures Plain(EXAMPLE.Observe(b, 0.0), n + 1)
  {
    var probs, stats := [0.004] + Scaled(b.probs, 1.0 - 0.004), [EXAMPLE.prior] + Model.Absorbed(b.stats, 0.0);
    assert PlainProbs(probs, n + 1) by { PlainProbsGrow(b.probs, n); }
    assert Counted(stats) by { CountedGrows(b.stats, 0.0); }
    ZeroObserved(b, n);
    PlainGrows(b, n, probs, stats);
  }

  lemma {:induction false} AfterZeros(n: nat)
    requires EXAMPLE.Valid() && n <= 61
    ensures Plain(EXAMPLE.BeliefAfter(Zeros(n)), n)
  {
    if n == 0 {
      TotalOne(1.0);
      assert Zeros(0) == [];
    } else {
      AfterZeros(n - 1);
      OneMoreZero(n - 1);
      EXAMPLE.BeliefGrows(Zeros(n - 1), 0.0);
      ZeroStep(EXAMPLE.BeliefAfter(Zeros(n - 1)), n - 1);
    }
  }

  // ----- The sample after them -----

  /** The share of the run that the peak favours, and of any other. */
  lemma PeakShare(w: real, total: real)
    requires total > 0.0 && w > 0.5 * total
    ensures w / total > 0.5
  {
    var q := w / total;
    assert q * total == w;
    assert (q - 0.5) * total > 0.0;
  }

  lemma OtherShare(w: real, total: real)
    requires 0.002 <= w && 0.0 < total <= 5.0
    ensures w / total >= 0.000001
  {
    var q := w / total;
    assert q * total == w;
    assert (q - 0.000001) * total > 0.0;
  }

  lemma PeakFit(b: Belief)
    requires Plain(b, 61)
    ensures var fit := EXAMPLE.Fit(b.stats, 1.0);
      forall i :: 0 <= i <= 61 ==> fit[i] == if i == 30 then 1000.0 else 1.0
  {
    forall i | 0 <= i <= 61 ensures EXAMPLE.pred(b.stats[i], 1.0) == if i == 30 then 1000.0 else 1.0 {
      assert EXAMPLE.pred(b.stats[i], 1.0) == Peaked(b.stats[i], 1.0);
    }
  }

  /** Weighed by that, run 30 outweighs the others. */
  lemma PeakWeights(probs: seq<real>, fit: seq<real>)
    requires |probs| == |fit| == 62 && Total(probs) == 1.0 && AtLeast(probs, 0.003) && probs[30] <= 0.004
    requires forall i :: 0 <= i <= 61 ==> fit[i] == if i == 30 then 1000.0 else 1.0
    ensures var weights := Times(probs, fit);
      && 1.0 < Total(weights) <= 5.0 && weights[30] > 0.6 * Total(weights)
      && AtLeast(weights, 0.003)
  {
    var weights := Times(probs, fit);
    forall i | 0 <= i <= 61 ensures weights[i] == (if i == 30 then 999.0 * probs[30] else 0.0) + probs[i] {
      assert weights[i] == Product(probs[i], fit[i]);
    }
    TotalChanges(probs, weights, 30, 999.0 * probs[30]);
  }

  lemma PeakPosterior(b: Belief)
    requires EXAMPLE.Valid() && Plain(b, 61)
    ensures EXAMPLE.Posterior(b, 1.0)[31] > 0.5 && AtLeast(EXAMPLE.Posterior(b, 1.0), 0.000001)
  {
    var fit := EXAMPLE.Fit(b.stats, 1.0);
    var weights := Times(b.probs, fit);
    PlainBounds(b, 61);
    PeakFit(b);
    PeakWeights(b.probs, fit);
    EXAMPLE.JointMass(b.probs, fit);
    Shares(weights, EXAMPLE.Joint(b.probs, fit));
  }

  lemma Shares(weights: seq<real>, joint: seq<real>)
    requires |weights| == 62 && |joint| == 63 && joint[1..] == Scaled(weights, 1.0 - 0.004)
    requires joint[0] == Product(Total(weights), 0.004)
    requires 1.0 < Total(joint) == Total(weights) <= 5.0 && weights[30] > 0.6 * Total(weights)
    requires AtLeast(weights, 0.003)
    ensures Divided(joint, Total(joint))[31] > 0.5 && AtLeast(Divided(joint, Total(joint)), 0.000001)
  {
    forall i | 1 <= i <= 62 ensures joint[i] == Product(weights[i - 1], 1.0 - 0.004) {
      assert joint[i] == joint[1..][i - 1];
    }
    PeakShare(joint[31], Total(joint));
    forall i | 0 <= i <= 62 ensures Divided(joint, Total(joint))[i] >= 0.000001 {
      OtherShare(joint[i], Total(joint));
    }
  }

  lemma PeakStep(b: Belief)
    requires EXAMPLE.Valid() && Plain(b, 61)
    ensures var now := EXAMPLE.Observe(b, 1.0);
      Model.Sound(now) && Total(now.probs) == 1.0 && |now.runs| == 63 && now.runs[31] == 31 && now.probs[31] > 0.5
  {
    PeakPosterior(b);
    NothingIsCut(b, 1.0);
  }

  // ----- What `detect` makes of it -----

  lemma MapAfterZeros(n: nat)
    requires EXAMPLE.Valid() && n <= 61
    ensures var b := EXAMPLE.BeliefAfter(Zeros(n));
      MapRunLength(b) == n && (n > 5 ==> RecentMass(b, 5) < 0.5)
  {
    AfterZeros(n);
    PlainBounds(EXAMPLE.BeliefAfter(Zeros(n)), n);
    Dominates(EXAMPLE.BeliefAfter(Zeros(n)), n, 5);
  }

  /** After each zero the most probable run is the whole stream. */
  lemma ZeroReadout(n: nat) returns (ro: Readout)
    requires EXAMPLE.Valid() && n < 61
    ensures Readouts(EXAMPLE, Zeros(n + 1), 5) == Readouts(EXAMPLE, Zeros(n), 5) + [ro]
    ensures ro.prevMap == n && ro.map_ == n + 1 && (n > 5 ==> ro.recent < 0.5)
  {
    MapAfterZeros(n);
    MapAfterZeros(n + 1);
    OneMoreZero(n);
    OneMoreSample(EXAMPLE, Zeros(n), 0.0, 5);
    ro := Readout(RecentMass(EXAMPLE.BeliefAfter(Zeros(n + 1)), 5), n, n + 1);
  }

  /** Nothing triggers before the last sample. */
  ghost predicate Quiet(ros: seq<Readout>) {
    && Detections(ros, DEFAULTS) == ([], -11)
    && forall t :: 5 < t < |ros| ==> !ros[t].TriggersAsDocumented(DEFAULTS)
  }

  lemma StaysQuiet(ros: seq<Readout>, ro: Readout)
    requires Quiet(ros) && ro.prevMap < ro.map_ && (|ros| > 5 ==> ro.recent < 0.5)
    ensures Quiet(ros + [ro])
  {
    OneMoreReadout(ros, ro, DEFAULTS);
  }

  lemma {:induction false} QuietBefore(n: nat)
    requires EXAMPLE.Valid() && n <= 61
    ensures Quiet(Readouts(EXAMPLE, Zeros(n), 5))
  {
    if n > 0 {
      QuietBefore(n - 1);
      var ro := ZeroReadout(n - 1);
      StaysQuiet(Readouts(EXAMPLE, Zeros(n - 1), 5), ro);
    }
  }

  lemma LastReadout() returns (ro: Readout)
    requires EXAMPLE.Valid()
    ensures Readouts(EXAMPLE, Zeros(61) + [1.0], 5) == Readouts(EXAMPLE, Zeros(61), 5) + [ro]
    ensures ro.prevMap == 61 && ro.map_ == 31 && ro.recent < 0.5
  {
    AfterZeros(61);
    MapAfterZeros(61);
    var before := EXAMPLE.BeliefAfter(Zeros(61));
    PeakStep(before);
    Dominates(EXAMPLE.Observe(before, 1.0), 31, 5);
    EXAMPLE.BeliefGrows(Zeros(61), 1.0);
    OneMoreSample(EXAMPLE, Zeros(61), 1.0, 5);
    ro := Readout(RecentMass(EXAMPLE.Observe(before, 1.0), 5), 61, 31);
  }

  lemma LastTriggers(ros: seq<Readout>, ro: Readout)
    requires Quiet(ros) && |ros| == 61 && ro.prevMap == 61 && ro.map_ == 31 && ro.recent < 0.5
    ensures Detections(ros + [ro], DEFAULTS).0 == [61]
    ensures forall t :: 5 < t <= 61 ==> !(ros + [ro])[t].TriggersAsDocumented(DEFAULTS)
  {
    OneMoreReadout(ros, ro, DEFAULTS);
  }

  /** With the defaults `detect` reports the last of 61 zeros and a one, where the most
      probable run length falls from 61 to 31; by its documentation it reports nothing. */
  lemma HalfIsEnough()
    ensures EXAMPLE.Valid()
    ensures var ros := Readouts(EXAMPLE, Zeros(61) + [1.0], DEFAULTS.window);
      && ros[61].prevMap == 61 && ros[61].map_ == 31
      && Detections(ros, DEFAULTS).0 == [61]
      && forall t :: DEFAULTS.window < t < |ros| ==> !ros[t].TriggersAsDocumented(DEFAULTS)
  {
    ExampleIsValid();
    QuietBefore(61);
    var ro := LastReadout();
    LastTriggers(Readouts(EXAMPLE, Zeros(61), 5), ro);
  }
}
