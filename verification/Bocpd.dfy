/** Bayesian online changepoint detection with a Normal-Gamma observation model.  Floats
    are reals; the posterior predictive density is any function that is positive on valid
    statistics. */
module Bocpd {
  import opened Wrappers

  /** Normal-Gamma sufficient statistics. */
  datatype Stats = Stats(mu: real, kappa: real, alpha: real, beta: real) {
    predicate Proper() { kappa > 0.0 && alpha > 0.0 && beta > 0.0 }
  }

  /** The retained run lengths, with the probability and the statistics of each. */
  datatype Belief = Belief(runs: seq<nat>, probs: seq<real>, stats: seq<Stats>) {
    predicate Aligned() { |runs| == |probs| == |stats| > 0 }
  }

  type Density = (Stats, real) -> real

  ghost predicate IsDensity(pred: Density) {
    forall s: Stats, x: real :: s.Proper() ==> pred(s, x) > 0.0
  }

  // ----- The conjugate update -----

  /** How much a sample at distance `d` from the mean raises beta. */
  function Surprise(kappa: real, d: real): real
    requires kappa > 0.0
  {
    0.5 * kappa * (d * d) / (kappa + 1.0)
  }

  /** The statistics after one more sample. */
  function Absorb(s: Stats, x: real): Stats
    requires s.Proper()
  {
    Stats((s.kappa * s.mu + x) / (s.kappa + 1.0), s.kappa + 1.0, s.alpha + 0.5,
          s.beta + Surprise(s.kappa, x - s.mu))
  }

  function Square(x: real): real { x * x }

  function Total(xs: seq<real>): real {
    if xs == [] then 0.0 else Total(xs[..|xs| - 1]) + xs[|xs| - 1]
  }

  function TotalOfSquares(xs: seq<real>): real {
    if xs == [] then 0.0 else TotalOfSquares(xs[..|xs| - 1]) + Square(xs[|xs| - 1])
  }

  /** kappa * mu, and 2 * beta + kappa * mu^2: the two sums the statistics carry. */
  function FirstMoment(s: Stats): real { s.kappa * s.mu }

  function SecondMoment(s: Stats): real { 2.0 * s.beta + s.kappa * Square(s.mu) }

  /** The batch posterior of the samples `xs` under a prior, as the four equations that
      define it. */
  ghost predicate IsPosterior(s: Stats, prior: Stats, xs: seq<real>) {
    && s.kappa == prior.kappa + |xs| as real
    && s.alpha == prior.alpha + |xs| as real / 2.0
    && FirstMoment(s) == FirstMoment(prior) + Total(xs)
    && SecondMoment(s) == SecondMoment(prior) + TotalOfSquares(xs)
  }

  /** The four equations have one solution. */
  lemma PosteriorIsUnique(s: Stats, t: Stats, prior: Stats, xs: seq<real>)
    requires prior.kappa > 0.0 && IsPosterior(s, prior, xs) && IsPosterior(t, prior, xs)
    ensures s == t
  {
    assert s.kappa * (s.mu - t.mu) == 0.0;
  }

  lemma CompleteTheSquare(k: real, mu: real, x: real, k': real, mu': real, step: real)
    requires k > 0.0 && k' == k + 1.0 && mu' == (k * mu + x) / k'
    requires step == 0.5 * k * ((x - mu) * (x - mu)) / k'
    ensures k' * mu' == k * mu + x
    ensures 2.0 * step + k' * (mu' * mu') == k * (mu * mu) + x * x
  {
    var a := k * mu + x;
    assert k' * mu' == a;
    var u, v := 2.0 * step, k' * (mu' * mu');
    assert k' * u == k * ((x - mu) * (x - mu));
    assert k' * v == a * a by {
      assert k' * v == (k' * mu') * (k' * mu');
    }
    assert a * a == k * mu * (k * mu) + 2.0 * (k * mu * x) + x * x;
    assert k * ((x - mu) * (x - mu)) == k * x * x - 2.0 * (k * mu * x) + k * mu * mu;
    assert k' * (k * (mu * mu) + x * x) == k * mu * (k * mu) + k * mu * mu + k * x * x + x * x;
    assert k' * (u + v) == k' * (k * (mu * mu) + x * x);
    assert k' * (u + v - (k * (mu * mu) + x * x)) == 0.0;
  }

  lemma SurpriseNonNegative(kappa: real, d: real)
    requires kappa > 0.0
    ensures Surprise(kappa, d) >= 0.0
  {
    assert d * d >= 0.0;
    assert 0.5 * kappa * (d * d) >= 0.0;
  }

  /** One sample adds itself to the first sum and its square to the second. */
  lemma AbsorbMoments(s: Stats, x: real)
    requires s.Proper()
    ensures FirstMoment(Absorb(s, x)) == FirstMoment(s) + x
    ensures SecondMoment(Absorb(s, x)) == SecondMoment(s) + Square(x)
  {
    var t := Absorb(s, x);
    CompleteTheSquare(s.kappa, s.mu, x, t.kappa, t.mu, Surprise(s.kappa, x - s.mu));
  }

  lemma AbsorbIsPosterior(s: Stats, prior: Stats, xs: seq<real>, x: real)
    requires s.Proper() && IsPosterior(s, prior, xs)
    ensures Absorb(s, x).Proper() && IsPosterior(Absorb(s, x), prior, xs + [x])
  {
    SurpriseNonNegative(s.kappa, x - s.mu);
    AbsorbMoments(s, x);
    assert (xs + [x])[..|xs + [x]| - 1] == xs;
  }

  // ----- Probabilities -----

  /** The pointwise product of two arrays. */
  function Times(ps: seq<real>, qs: seq<real>): (r: seq<real>)
    requires |ps| == |qs|
    ensures |r| == |ps| && forall i :: 0 <= i < |r| ==> r[i] == Product(ps[i], qs[i])
  {
    seq(|ps|, i requires 0 <= i < |ps| => Product(ps[i], qs[i]))
  }

  function Product(a: real, b: real): real { a * b }

  function Scaled(ps: seq<real>, c: real): (r: seq<real>)
    ensures |r| == |ps| && forall i :: 0 <= i < |r| ==> r[i] == Product(ps[i], c)
  {
    seq(|ps|, i requires 0 <= i < |ps| => Product(ps[i], c))
  }

  function Divided(ps: seq<real>, m: real): (r: seq<real>)
    requires m != 0.0
    ensures |r| == |ps| && forall i :: 0 <= i < |r| ==> r[i] == ps[i] / m
  {
    seq(|ps|, i requires 0 <= i < |ps| => ps[i] / m)
  }

  ghost predicate AllPositive(ps: seq<real>) {
    forall i :: 0 <= i < |ps| ==> ps[i] > 0.0
  }

  lemma {:induction false} TotalConcat(a: seq<real>, b: seq<real>)
    ensures Total(a + b) == Total(a) + Total(b)
  {
    if b == [] {
      assert a + b == a;
    } else {
      var n := |b| - 1;
      TotalConcat(a, b[..n]);
      assert (a + b)[..|a + b| - 1] == a + b[..n];
    }
  }

  lemma TotalOne(x: real)
    ensures Total([x]) == x
  {
    assert [x][..0] == [];
  }

  lemma TotalSplit(ps: seq<real>)
    requires ps != []
    ensures Total(ps) == ps[0] + Total(ps[1..])
  {
    assert ps == [ps[0]] + ps[1..];
    TotalConcat([ps[0]], ps[1..]);
    TotalOne(ps[0]);
  }

  lemma {:induction false} TotalPositive(ps: seq<real>)
    requires AllPositive(ps)
    ensures Total(ps) >= 0.0
    ensures ps != [] ==> Total(ps) >= ps[0] > 0.0
  {
    if ps != [] { TotalPositive(ps[..|ps| - 1]); }
  }

  lemma Distribute(a: real, b: real, c: real)
    ensures Product(a + b, c) == Product(a, c) + Product(b, c)
  {
  }

  lemma SplitQuotient(a: real, b: real, m: real)
    requires m != 0.0
    ensures (a + b) / m == a / m + b / m
  {
  }

  lemma {:induction false} TotalScaled(ps: seq<real>, c: real)
    ensures Total(Scaled(ps, c)) == Product(Total(ps), c)
  {
    if ps != [] {
      var n := |ps| - 1;
      TotalScaled(ps[..n], c);
      assert Scaled(ps, c)[..n] == Scaled(ps[..n], c);
      Distribute(Total(ps[..n]), ps[n], c);
    }
  }

  lemma {:induction false} TotalDivided(ps: seq<real>, m: real)
    requires m != 0.0
    ensures Total(Divided(ps, m)) == Total(ps) / m
  {
    if ps != [] {
      var n := |ps| - 1;
      TotalDivided(ps[..n], m);
      assert Divided(ps, m)[..n] == Divided(ps[..n], m);
      SplitQuotient(Total(ps[..n]), ps[n], m);
    }
  }

  lemma ProductPositive(a: real, b: real)
    requires a > 0.0 && b > 0.0
    ensures Product(a, b) > 0.0
  {
  }

  lemma QuotientPositive(a: real, b: real)
    requires a > 0.0 && b > 0.0
    ensures a / b > 0.0
    ensures b <= 1.0 ==> a / b >= a
  {
    var z := a / b;
    assert z * b == a;
    if b <= 1.0 { assert z * (1.0 - b) >= 0.0; }
  }

  lemma TimesPositive(ps: seq<real>, qs: seq<real>)
    requires |ps| == |qs| && AllPositive(ps) && AllPositive(qs)
    ensures AllPositive(Times(ps, qs))
  {
    forall i | 0 <= i < |ps| ensures Times(ps, qs)[i] > 0.0 { ProductPositive(ps[i], qs[i]); }
  }

  lemma ScaledPositive(ps: seq<real>, c: real)
    requires AllPositive(ps) && c > 0.0
    ensures AllPositive(Scaled(ps, c))
  {
    forall i | 0 <= i < |ps| ensures Scaled(ps, c)[i] > 0.0 { ProductPositive(ps[i], c); }
  }

  lemma DividedPositive(ps: seq<real>, m: real)
    requires AllPositive(ps) && m > 0.0
    ensures AllPositive(Divided(ps, m))
    ensures m <= 1.0 ==> forall i :: 0 <= i < |ps| ==> Divided(ps, m)[i] >= ps[i]
  {
    forall i | 0 <= i < |ps| ensures Divided(ps, m)[i] > 0.0 && (m <= 1.0 ==> Divided(ps, m)[i] >= ps[i]) {
      QuotientPositive(ps[i], m);
    }
  }

  // ----- Truncation -----

  /** The indices a mask keeps, ascending. */
  function KeptIndices(keep: seq<bool>): (idx: seq<nat>)
    ensures forall i :: 0 <= i < |idx| ==> idx[i] < |keep| && keep[idx[i]]
    ensures forall i, j :: 0 <= i < j < |idx| ==> idx[i] < idx[j]
  {
    if keep == [] then []
    else
      var n := |keep| - 1;
      KeptIndices(keep[..n]) + if keep[n] then [n] else []
  }

  /** `xs[keep]`: the entries a mask keeps. */
  function Select<T>(xs: seq<T>, keep: seq<bool>): (r: seq<T>)
    requires |xs| == |keep|
    ensures |r| == |KeptIndices(keep)|
    ensures forall i :: 0 <= i < |r| ==> r[i] == xs[KeptIndices(keep)[i]]
  {
    var idx := KeptIndices(keep);
    seq(|idx|, i requires 0 <= i < |idx| => xs[idx[i]])
  }

  /** The fresh run is always kept, the others from the cutoff up. */
  function Mask(ps: seq<real>, cutoff: real): (keep: seq<bool>)
    ensures |keep| == |ps|
    ensures forall i :: 0 <= i < |ps| ==> (keep[i] <==> i == 0 || ps[i] >= cutoff)
  {
    seq(|ps|, i requires 0 <= i < |ps| => i == 0 || ps[i] >= cutoff)
  }

  lemma {:induction false} FirstIsKept(keep: seq<bool>)
    requires keep != [] && keep[0]
    ensures KeptIndices(keep) != [] && KeptIndices(keep)[0] == 0
  {
    var n := |keep| - 1;
    if n > 0 {
      FirstIsKept(keep[..n]);
    } else {
      assert KeptIndices(keep[..0]) == [];
    }
  }

  lemma SelectGrows<T>(xs: seq<T>, keep: seq<bool>)
    requires |xs| == |keep| > 0
    ensures var n := |xs| - 1;
      var before := Select(xs[..n], keep[..n]);
      Select(xs, keep) == if keep[n] then before + [xs[n]] else before
  {
  }

  lemma {:induction false} SelectLosesMass(ps: seq<real>, keep: seq<bool>)
    requires |ps| == |keep| && AllPositive(ps)
    ensures Total(Select(ps, keep)) <= Total(ps)
  {
    if ps != [] {
      var n := |ps| - 1;
      var before := Select(ps[..n], keep[..n]);
      SelectLosesMass(ps[..n], keep[..n]);
      SelectGrows(ps, keep);
      if keep[n] {
        TotalConcat(before, [ps[n]]);
        TotalOne(ps[n]);
      }
    }
  }

  // ----- One observation -----

  datatype Model = Model(prior: Stats, hazard: real, cutoff: real, pred: Density) {

    ghost predicate Valid() {
      prior.Proper() && 0.0 < hazard < 1.0 && IsDensity(pred)
    }

    /** The belief before any sample. */
    function Start(): Belief { Belief([0], [1.0], [prior]) }

    /** The predictive density of `x` under each retained run length. */
    function Fit(stats: seq<Stats>, x: real): (r: seq<real>)
      ensures |r| == |stats| && forall i :: 0 <= i < |r| ==> r[i] == pred(stats[i], x)
    {
      seq(|stats|, i requires 0 <= i < |stats| => pred(stats[i], x))
    }

    /** The joint over run lengths, a fresh run first. */
    function Joint(probs: seq<real>, fit: seq<real>): (r: seq<real>)
      requires |probs| == |fit|
      ensures |r| == |probs| + 1
    {
      var weights := Times(probs, fit);
      [Total(Scaled(weights, hazard))] + Scaled(weights, 1.0 - hazard)
    }

    static function Absorbed(stats: seq<Stats>, x: real): (r: seq<Stats>)
      requires forall i :: 0 <= i < |stats| ==> stats[i].Proper()
      ensures |r| == |stats| && forall i :: 0 <= i < |r| ==> r[i] == Absorb(stats[i], x)
    {
      seq(|stats|, i requires 0 <= i < |stats| => Absorb(stats[i], x))
    }

    static function Longer(runs: seq<nat>): (r: seq<nat>)
      ensures |r| == |runs| && forall i :: 0 <= i < |r| ==> r[i] == runs[i] + 1
    {
      seq(|runs|, i requires 0 <= i < |runs| => runs[i] + 1)
    }

    static ghost predicate Sound(b: Belief) {
      b.Aligned() && AllPositive(b.probs) && forall i :: 0 <= i < |b.stats| ==> b.stats[i].Proper()
    }

    /** The normalised posterior over run lengths before truncation. */
    ghost function Posterior(b: Belief, x: real): (r: seq<real>)
      requires Valid() && Sound(b)
      ensures |r| == |b.probs| + 1
    {
      var joint := Joint(b.probs, Fit(b.stats, x));
      JointIsPositive(b.probs, Fit(b.stats, x));
      Divided(joint, Total(joint))
    }

    /** The belief after one more sample. */
    ghost function Observe(b: Belief, x: real): Belief
      requires Valid() && Sound(b)
    {
      var posterior := Posterior(b, x);
      var keep := Mask(posterior, cutoff);
      PosteriorIsDistribution(b, x);
      TruncationIsDistribution(posterior);
      var kept := Select(posterior, keep);
      Belief(Select([0] + Longer(b.runs), keep),
             Divided(kept, Total(kept)),
             Select([prior] + Absorbed(b.stats, x), keep))
    }

    lemma JointIsPositive(probs: seq<real>, fit: seq<real>)
      requires 0.0 < hazard < 1.0 && probs != [] && |probs| == |fit| && AllPositive(probs) && AllPositive(fit)
      ensures AllPositive(Joint(probs, fit)) && Total(Joint(probs, fit)) > 0.0
    {
      var weights := Times(probs, fit);
      TimesPositive(probs, fit);
      ScaledPositive(weights, hazard);
      ScaledPositive(weights, 1.0 - hazard);
      TotalPositive(Scaled(weights, hazard));
      TotalPositive(Joint(probs, fit));
    }

    /** The joint's mass is the total weight, a `hazard` share of it on the fresh run. */
    lemma JointMass(probs: seq<real>, fit: seq<real>)
      requires |probs| == |fit|
      ensures var w := Total(Times(probs, fit));
        Joint(probs, fit)[0] == Product(w, hazard) && Total(Joint(probs, fit)) == w
    {
      var weights := Times(probs, fit);
      TotalScaled(weights, hazard);
      TotalScaled(weights, 1.0 - hazard);
      TotalSplit(Joint(probs, fit));
      WholeOf(Total(weights), hazard);
    }

    /** Before truncation the posterior is a distribution that gives a fresh run exactly
        the hazard. */
    lemma PosteriorIsDistribution(b: Belief, x: real)
      requires Valid() && Sound(b)
      ensures AllPositive(Posterior(b, x)) && Total(Posterior(b, x)) == 1.0 && Posterior(b, x)[0] == hazard
    {
      var fit := Fit(b.stats, x);
      var joint := Joint(b.probs, fit);
      JointIsPositive(b.probs, fit);
      JointMass(b.probs, fit);
      var w := Total(joint);
      DividedPositive(joint, w);
      TotalDivided(joint, w);
      ShareOfWhole(w, hazard);
    }

    static lemma WholeOf(w: real, c: real)
      ensures Product(w, c) + Product(w, 1.0 - c) == w
    {
    }

    static lemma ShareOfWhole(w: real, c: real)
      requires w != 0.0
      ensures Product(w, c) / w == c && w / w == 1.0
    {
    }

    /** Truncating and rescaling a distribution gives a distribution; no probability falls,
        and everything but the fresh run stays at or above the cutoff. */
    lemma TruncationIsDistribution(ps: seq<real>)
      requires ps != [] && AllPositive(ps) && Total(ps) == 1.0
      ensures var kept := Select(ps, Mask(ps, cutoff));
        && kept != [] && Total(kept) > 0.0
        && var qs := Divided(kept, Total(kept));
           && AllPositive(qs) && Total(qs) == 1.0 && qs[0] >= ps[0]
           && forall i :: 1 <= i < |qs| ==> qs[i] >= cutoff
    {
      var keep := Mask(ps, cutoff);
      var kept := Select(ps, keep);
      FirstIsKept(keep);
      SelectLosesMass(ps, keep);
      TotalPositive(kept);
      DividedPositive(kept, Total(kept));
      TotalDivided(kept, Total(kept));
      ShareOfWhole(Total(kept), 1.0);
      assert forall i :: 1 <= i < |kept| ==> kept[i] >= cutoff;
    }

    // ----- What every belief satisfies -----

    lemma ObserveIsSound(b: Belief, x: real)
      requires Valid() && Sound(b)
      ensures Sound(Observe(b, x))
    {
      PosteriorIsDistribution(b, x);
      TruncationIsDistribution(Posterior(b, x));
      AbsorbedIsProper(b.stats, x);
    }

    lemma ObserveIsCalibrated(b: Belief, x: real)
      requires Valid() && Sound(b)
      ensures Calibrated(Observe(b, x).probs)
    {
      PosteriorIsDistribution(b, x);
      TruncationIsDistribution(Posterior(b, x));
    }

    static lemma AbsorbedIsProper(stats: seq<Stats>, x: real)
      requires forall i :: 0 <= i < |stats| ==> stats[i].Proper()
      ensures forall i :: 0 <= i < |stats| ==> Absorbed(stats, x)[i].Proper()
    {
      forall i | 0 <= i < |stats| ensures Absorbed(stats, x)[i].Proper() {
        AbsorbProper(stats[i], x);
      }
    }

    static lemma AbsorbProper(s: Stats, x: real)
      requires s.Proper()
      ensures Absorb(s, x).Proper()
    {
      SurpriseNonNegative(s.kappa, x - s.mu);
    }

    /** The belief after the samples `xs`. */
    ghost function BeliefAfter(xs: seq<real>): (b: Belief)
      requires Valid()
      ensures Sound(b)
    {
      if xs == [] then Start()
      else
        var before := BeliefAfter(xs[..|xs| - 1]);
        ObserveIsSound(before, xs[|xs| - 1]);
        Observe(before, xs[|xs| - 1])
    }

    /** Run lengths start at 0 and increase, and each run length `r` carries the batch
        posterior of the last `r` samples. */
    ghost predicate Faithful(runs: seq<nat>, stats: seq<Stats>, xs: seq<real>) {
      && |runs| == |stats| > 0
      && runs[0] == 0
      && (forall i, j :: 0 <= i < j < |runs| ==> runs[i] < runs[j])
      && (forall i :: 0 <= i < |runs| ==>
            runs[i] <= |xs| && IsPosterior(stats[i], prior, xs[|xs| - runs[i]..]))
    }

    lemma GrowthIsFaithful(runs: seq<nat>, stats: seq<Stats>, xs: seq<real>, x: real)
      requires Faithful(runs, stats, xs)
      requires forall i :: 0 <= i < |stats| ==> stats[i].Proper()
      ensures Faithful([0] + Longer(runs), [prior] + Absorbed(stats, x), xs + [x])
    {
      var runs', stats', xs' := [0] + Longer(runs), [prior] + Absorbed(stats, x), xs + [x];
      forall i | 0 <= i < |runs'|
        ensures runs'[i] <= |xs'| && IsPosterior(stats'[i], prior, xs'[|xs'| - runs'[i]..])
      {
        if i == 0 {
          assert xs'[|xs'|..] == [];
        } else {
          GrownEntry(stats[i - 1], xs, x, runs[i - 1]);
        }
      }
    }

    lemma GrownEntry(s: Stats, xs: seq<real>, x: real, run: nat)
      requires run <= |xs| && s.Proper() && IsPosterior(s, prior, xs[|xs| - run..])
      ensures IsPosterior(Absorb(s, x), prior, (xs + [x])[|xs| - run..])
    {
      AbsorbIsPosterior(s, prior, xs[|xs| - run..], x);
      assert (xs + [x])[|xs| - run..] == xs[|xs| - run..] + [x];
    }

    lemma SelectionIsFaithful(runs: seq<nat>, stats: seq<Stats>, xs: seq<real>, keep: seq<bool>)
      requires Faithful(runs, stats, xs) && |keep| == |runs| && keep[0]
      ensures Faithful(Select(runs, keep), Select(stats, keep), xs)
    {
      FirstIsKept(keep);
    }

    lemma ObserveIsFaithful(b: Belief, xs: seq<real>, x: real)
      requires Valid() && Sound(b) && Faithful(b.runs, b.stats, xs)
      ensures Faithful(Observe(b, x).runs, Observe(b, x).stats, xs + [x])
    {
      GrowthIsFaithful(b.runs, b.stats, xs, x);
      SelectionIsFaithful([0] + Longer(b.runs), [prior] + Absorbed(b.stats, x), xs + [x],
                          Mask(Posterior(b, x), cutoff));
    }

    // ----- What one observation does, in the numbers of the belief before it -----

    /** Every run length's density of `x`, weighed by its probability. */
    ghost function Weights(b: Belief, x: real): (ws: seq<real>)
      requires b.Aligned()
      ensures |ws| == |b.probs| && forall i :: 0 <= i < |ws| ==> ws[i] == b.probs[i] * pred(b.stats[i], x)
    {
      seq(|b.probs|, i requires 0 <= i < |b.probs| => b.probs[i] * pred(b.stats[i], x))
    }

    /** The probabilities, before truncation, that runs of these weights go on. */
    function Shares(weights: seq<real>): (shares: seq<real>)
      requires Total(weights) > 0.0
      ensures |shares| == |weights|
      ensures forall i :: 0 <= i < |shares| ==> shares[i] == (1.0 - hazard) * weights[i] / Total(weights)
    {
      var total := Total(weights);
      seq(|weights|, i requires 0 <= i < |weights| => (1.0 - hazard) * weights[i] / total)
    }

    /** Entry `j` of the belief afterwards is some run length one longer, with its statistics
        updated and its share of what was kept. */
    ghost predicate Continues(b: Belief, x: real, shares: seq<real>, next: Belief, j: nat, kept: real)
      requires b.Aligned() && next.Aligned() && j < |next.runs| && |shares| == |b.runs|
    {
      exists i :: 0 <= i < |b.runs| && next.runs[j] == b.runs[i] + 1
                  && b.stats[i].Proper() && next.stats[j] == Absorb(b.stats[i], x)
                  && next.probs[j] * kept == shares[i]
    }

    /** Retained are the fresh run and exactly the run lengths whose share is not below the
        cutoff, each with its share over the total `kept` of the shares that are retained. */
    ghost predicate Retains(b: Belief, x: real, shares: seq<real>, next: Belief, kept: real) {
      && b.Aligned() && next.Aligned() && |shares| == |b.runs| && kept > 0.0
      && next.runs[0] == 0 && next.stats[0] == prior && next.probs[0] * kept == hazard
      && (forall i :: 0 <= i < |b.runs| ==> (b.runs[i] + 1 in next.runs <==> shares[i] >= cutoff))
      && (forall j :: 1 <= j < |next.runs| ==> Continues(b, x, shares, next, j, kept))
    }

    /** All of it, from the numbers of the belief and the sample. */
    ghost predicate Updates(b: Belief, x: real, next: Belief) {
      && b.Aligned() && Total(Weights(b, x)) > 0.0
      && exists kept: real :: Retains(b, x, Shares(Weights(b, x)), next, kept)
    }

    lemma WeightsAreTimes(b: Belief, x: real)
      requires b.Aligned()
      ensures Weights(b, x) == Times(b.probs, Fit(b.stats, x))
    {
      var ws, ts := Weights(b, x), Times(b.probs, Fit(b.stats, x));
      forall i | 0 <= i < |ws| ensures ws[i] == ts[i] {
        assert ts[i] == Product(b.probs[i], Fit(b.stats, x)[i]);
      }
    }

    lemma SharesOfJoint(weights: seq<real>, joint: seq<real>)
      requires joint != [] && joint[1..] == Scaled(weights, 1.0 - hazard) && Total(weights) > 0.0
      ensures Divided(joint, Total(weights))[1..] == Shares(weights)
    {
      forall i | 0 <= i < |weights| ensures Divided(joint, Total(weights))[i + 1] == Shares(weights)[i] {
        assert joint[i + 1] == joint[1..][i] == Product(weights[i], 1.0 - hazard);
        OneShare(weights[i], Total(weights));
      }
    }

    lemma OneShare(w: real, total: real)
      requires total > 0.0
      ensures Product(w, 1.0 - hazard) / total == (1.0 - hazard) * w / total
    {
    }

    lemma SharesOfPosterior(b: Belief, x: real)
      requires Valid() && Sound(b)
      ensures Total(Weights(b, x)) > 0.0 && Posterior(b, x)[1..] == Shares(Weights(b, x))
    {
      var fit := Fit(b.stats, x);
      WeightsAreTimes(b, x);
      JointMass(b.probs, fit);
      JointIsPositive(b.probs, fit);
      SharesOfJoint(Weights(b, x), Joint(b.probs, fit));
    }

    static lemma TimesQuotient(a: real, c: real)
      requires c != 0.0
      ensures a / c * c == a
    {
    }

    static lemma {:induction false} EveryKeptIndex(keep: seq<bool>, i: nat)
      requires i < |keep| && keep[i]
      ensures i in KeptIndices(keep)
    {
      var n := |keep| - 1;
      if i < n {
        EveryKeptIndex(keep[..n], i);
      }
    }

    /** An entry that occurs once is selected exactly when the mask keeps it. */
    static lemma SelectedIff<T>(xs: seq<T>, keep: seq<bool>, k: nat)
      requires |xs| == |keep| && k < |xs| && forall l :: 0 <= l < |xs| && l != k ==> xs[l] != xs[k]
      ensures xs[k] in Select(xs, keep) <==> keep[k]
    {
      var idx := KeptIndices(keep);
      if keep[k] {
        EveryKeptIndex(keep, k);
        var j :| 0 <= j < |idx| && idx[j] == k;
        assert Select(xs, keep)[j] == xs[k];
      }
    }

    lemma RunIsKept(runs: seq<nat>, keep: seq<bool>, i: nat)
      requires |keep| == |runs| + 1 && i < |runs|
      requires forall k, l :: 0 <= k < l < |runs| ==> runs[k] < runs[l]
      ensures runs[i] + 1 in Select([0] + Longer(runs), keep) <==> keep[i + 1]
    {
      var grown := [0] + Longer(runs);
      forall l | 0 <= l < |grown| && l != i + 1 ensures grown[l] != grown[i + 1] {
        if l > 0 { assert grown[l] == runs[l - 1] + 1; }
      }
      SelectedIff(grown, keep, i + 1);
    }

    lemma KeptByShare(runs: seq<nat>, shares: seq<real>, keep: seq<bool>)
      requires |shares| == |runs| && keep == Mask([hazard] + shares, cutoff)
      requires forall k, l :: 0 <= k < l < |runs| ==> runs[k] < runs[l]
      ensures forall i :: 0 <= i < |runs| ==>
        (runs[i] + 1 in Select([0] + Longer(runs), keep) <==> shares[i] >= cutoff)
    {
      forall i | 0 <= i < |runs|
        ensures runs[i] + 1 in Select([0] + Longer(runs), keep) <==> shares[i] >= cutoff
      {
        RunIsKept(runs, keep, i);
        MaskOfShare(shares, i);
      }
    }

    lemma MaskOfShare(shares: seq<real>, i: nat)
      requires i < |shares|
      ensures Mask([hazard] + shares, cutoff)[i + 1] <==> shares[i] >= cutoff
    {
      assert ([hazard] + shares)[i + 1] == shares[i];
    }

    /** `next` is what the mask leaves of the grown arrays, rescaled. */
    ghost predicate Selected(b: Belief, x: real, posterior: seq<real>, keep: seq<bool>, next: Belief, kept: real)
      requires Sound(b)
    {
      && |posterior| == |keep| == |b.runs| + 1 && keep[0] && next.Aligned()
      && kept == Total(Select(posterior, keep)) > 0.0
      && next.runs == Select([0] + Longer(b.runs), keep)
      && next.probs == Divided(Select(posterior, keep), kept)
      && next.stats == Select([prior] + Absorbed(b.stats, x), keep)
    }

    static lemma SelectHead<T>(head: T, tail: seq<T>, keep: seq<bool>)
      requires |keep| == |tail| + 1 && keep[0]
      ensures |KeptIndices(keep)| > 0 && Select([head] + tail, keep)[0] == head
    {
      FirstIsKept(keep);
    }

    lemma FirstEntry(runs: seq<nat>, stats: seq<Stats>, shares: seq<real>, keep: seq<bool>, next: Belief, kept: real)
      requires |runs| == |stats| == |shares| == |keep| - 1 && keep[0] && kept > 0.0 && next.Aligned()
      requires next.runs == Select([0] + Longer(runs), keep) && next.stats == Select([prior] + stats, keep)
      requires next.probs == Divided(Select([hazard] + shares, keep), kept)
      ensures next.runs[0] == 0 && next.stats[0] == prior && next.probs[0] * kept == hazard
    {
      SelectHead(0, Longer(runs), keep);
      SelectHead(prior, stats, keep);
      SelectHead(hazard, shares, keep);
      TimesQuotient(hazard, kept);
    }

    static lemma SelectTail<T>(head: T, tail: seq<T>, keep: seq<bool>, j: nat)
      requires |keep| == |tail| + 1 && keep[0] && 1 <= j < |KeptIndices(keep)|
      ensures 1 <= KeptIndices(keep)[j] && Select([head] + tail, keep)[j] == tail[KeptIndices(keep)[j] - 1]
    {
      FirstIsKept(keep);
      assert KeptIndices(keep)[0] < KeptIndices(keep)[j];
    }

    lemma OtherSelected(b: Belief, x: real, shares: seq<real>, keep: seq<bool>, next: Belief, kept: real, j: nat)
      requires Sound(b) && |shares| == |b.runs| && Selected(b, x, [hazard] + shares, keep, next, kept)
      requires 1 <= j < |next.runs|
      ensures Continues(b, x, shares, next, j, kept)
    {
      var i := OtherEntry(b.runs, Absorbed(b.stats, x), shares, keep, next, kept, j);
      EntryContinues(b, x, shares, next, j, i, kept);
    }

    lemma OtherEntry(runs: seq<nat>, stats: seq<Stats>, shares: seq<real>, keep: seq<bool>, next: Belief, kept: real,
        j: nat) returns (i: nat)
      requires |runs| == |stats| == |shares| == |keep| - 1 && keep[0] && kept > 0.0 && next.Aligned()
      requires next.runs == Select([0] + Longer(runs), keep) && next.stats == Select([prior] + stats, keep)
      requires next.probs == Divided(Select([hazard] + shares, keep), kept) && 1 <= j < |next.runs|
      ensures i < |runs| && next.runs[j] == runs[i] + 1 && next.stats[j] == stats[i]
      ensures next.probs[j] * kept == shares[i]
    {
      SelectTail(0, Longer(runs), keep, j);
      SelectTail(prior, stats, keep, j);
      SelectTail(hazard, shares, keep, j);
      i := KeptIndices(keep)[j] - 1;
      TimesQuotient(shares[i], kept);
    }

    lemma EntryContinues(b: Belief, x: real, shares: seq<real>, next: Belief, j: nat, i: nat, kept: real)
      requires Sound(b) && next.Aligned() && j < |next.runs| && |shares| == |b.runs| && i < |b.runs|
      requires next.runs[j] == b.runs[i] + 1 && next.stats[j] == Absorbed(b.stats, x)[i]
      requires next.probs[j] * kept == shares[i]
      ensures Continues(b, x, shares, next, j, kept)
    {
      assert next.stats[j] == Absorb(b.stats[i], x);
    }

    lemma SelectionRetains(b: Belief, x: real, shares: seq<real>, keep: seq<bool>, next: Belief, kept: real)
      requires Sound(b) && |shares| == |b.runs| && Selected(b, x, [hazard] + shares, keep, next, kept)
      requires forall i, j :: 0 <= i < j < |b.runs| ==> b.runs[i] < b.runs[j]
      requires keep == Mask([hazard] + shares, cutoff)
      ensures Retains(b, x, shares, next, kept)
    {
      KeptByShare(b.runs, shares, keep);
      FirstEntry(b.runs, Absorbed(b.stats, x), shares, keep, next, kept);
      forall j | 1 <= j < |next.runs| ensures Continues(b, x, shares, next, j, kept) {
        OtherSelected(b, x, shares, keep, next, kept, j);
      }
    }

    lemma ObserveSelects(b: Belief, x: real)
      requires Valid() && Sound(b)
      ensures var posterior := Posterior(b, x);
        var keep := Mask(posterior, cutoff);
        posterior[0] == hazard && Selected(b, x, posterior, keep, Observe(b, x), Total(Select(posterior, keep)))
    {
      PosteriorIsDistribution(b, x);
      TruncationIsDistribution(Posterior(b, x));
      ObserveIsSound(b, x);
    }

    lemma ObserveUpdates(b: Belief, x: real)
      requires Valid() && Sound(b)
      requires forall i, j :: 0 <= i < j < |b.runs| ==> b.runs[i] < b.runs[j]
      ensures Updates(b, x, Observe(b, x))
    {
      var posterior := Posterior(b, x);
      var keep := Mask(posterior, cutoff);
      var kept := Total(Select(posterior, keep));
      ObserveSelects(b, x);
      SharesOfPosterior(b, x);
      SplitHead(posterior, hazard, Shares(Weights(b, x)));
      SelectionRetains(b, x, Shares(Weights(b, x)), keep, Observe(b, x), kept);
    }

    static lemma SplitHead(s: seq<real>, head: real, tail: seq<real>)
      requires s != [] && s[0] == head && s[1..] == tail
      ensures s == [head] + tail
    {
    }

    /** The probabilities are a distribution, at least the hazard of it on a fresh run and
        nothing else below the cutoff. */
    ghost predicate Calibrated(probs: seq<real>) {
      && probs != [] && Total(probs) == 1.0
      && probs[0] >= hazard
      && forall i :: 1 <= i < |probs| ==> probs[i] >= cutoff
    }

    /** What every belief after the samples `xs` satisfies. */
    ghost predicate Believes(b: Belief, xs: seq<real>) {
      Sound(b) && Faithful(b.runs, b.stats, xs) && Calibrated(b.probs)
    }

    lemma ObserveBelieves(b: Belief, xs: seq<real>, x: real)
      requires Valid() && Believes(b, xs)
      ensures Believes(Observe(b, x), xs + [x])
    {
      ObserveIsSound(b, x);
      ObserveIsCalibrated(b, x);
      ObserveIsFaithful(b, xs, x);
    }

    lemma StartBelieves(b: Belief)
      requires Valid() && b == Start()
      ensures Believes(b, [])
    {
      StartIsFaithful();
    }

    lemma StartIsFaithful()
      requires Valid()
      ensures Sound(Start()) && Faithful(Start().runs, Start().stats, []) && Calibrated(Start().probs)
    {
      TotalOne(1.0);
      var none: seq<real> := [];
      assert none[0..] == none;
    }

    /** After any samples, and through any truncation, the retained run lengths carry the
        batch posteriors of their own samples, and their probabilities are a distribution. */
    lemma {:induction false} BeliefIsFaithful(xs: seq<real>)
      requires Valid()
      ensures Faithful(BeliefAfter(xs).runs, BeliefAfter(xs).stats, xs)
      ensures Calibrated(BeliefAfter(xs).probs)
    {
      if xs == [] {
        StartIsFaithful();
      } else {
        var before, x := xs[..|xs| - 1], xs[|xs| - 1];
        assert before + [x] == xs;
        BeliefIsFaithful(before);
        ObserveIsCalibrated(BeliefAfter(before), x);
        ObserveIsFaithful(BeliefAfter(before), before, x);
      }
    }

    static lemma {:induction false} TotalAtLeast(ps: seq<real>, floor: real)
      requires forall i :: 0 <= i < |ps| ==> ps[i] >= floor
      ensures Total(ps) >= Product(|ps| as real, floor)
    {
      if ps != [] {
        var n := |ps| - 1;
        TotalAtLeast(ps[..n], floor);
        Distribute(n as real, 1.0, floor);
      }
    }

    static lemma BoundByQuotient(n: real, c: real)
      requires c > 0.0 && Product(n, c) <= 1.0
      ensures n <= 1.0 / c
    {
      var z := 1.0 / c;
      assert z * c == 1.0;
      assert (z - n) * c >= 0.0;
    }

    lemma CalibratedIsShort(ps: seq<real>)
      requires Calibrated(ps) && 0.0 < hazard && cutoff > 0.0
      ensures |ps| as real <= 1.0 + 1.0 / cutoff
    {
      TotalSplit(ps);
      TotalAtLeast(ps[1..], cutoff);
      BoundByQuotient((|ps| - 1) as real, cutoff);
    }

    /** At most 1 + 1 / cutoff run lengths are ever retained. */
    lemma FewRunLengths(xs: seq<real>)
      requires Valid() && cutoff > 0.0
      ensures |BeliefAfter(xs).runs| as real <= 1.0 + 1.0 / cutoff
    {
      BeliefIsFaithful(xs);
      CalibratedIsShort(BeliefAfter(xs).probs);
    }

    lemma BeliefGrows(xs: seq<real>, x: real)
      requires Valid()
      ensures BeliefAfter(xs + [x]) == Observe(BeliefAfter(xs), x)
    {
      assert (xs + [x])[..|xs + [x]| - 1] == xs;
    }
  }

  // ----- Detection over a stream -----

  /** The index of the first largest entry. */
  function ArgMax(ps: seq<real>): (i: nat)
    requires ps != []
    ensures i < |ps|
    ensures forall j :: 0 <= j < |ps| ==> ps[j] <= ps[i]
    ensures forall j :: 0 <= j < i ==> ps[j] < ps[i]
  {
    var n := |ps| - 1;
    if n == 0 then 0
    else
      var i := ArgMax(ps[..n]);
      if ps[n] > ps[i] then n else i
  }

  function MapRunLength(b: Belief): nat
    requires b.Aligned()
  {
    b.runs[ArgMax(b.probs)]
  }

  /** The probability of a run length of at most `window`. */
  function RecentMass(b: Belief, window: int): real
    requires b.Aligned()
  {
    Total(Select(b.probs, seq(|b.runs|, i requires 0 <= i < |b.runs| => b.runs[i] <= window)))
  }

  /** That is the sum of the probabilities of those run lengths, each counted as it stands. */
  lemma RecentIsSum(b: Belief, window: int)
    requires b.Aligned()
    ensures RecentMass(b, window) == Total(RecentProbs(b, window))
  {
    SelectedTotal(b.probs, seq(|b.runs|, i requires 0 <= i < |b.runs| => b.runs[i] <= window), RecentProbs(b, window));
  }

  /** The probabilities of the runs of at most `window`, and 0 for the others. */
  function RecentProbs(b: Belief, window: int): (ps: seq<real>)
    requires b.Aligned()
    ensures |ps| == |b.probs|
    ensures forall i :: 0 <= i < |ps| ==> ps[i] == if b.runs[i] <= window then b.probs[i] else 0.0
  {
    seq(|b.probs|, i requires 0 <= i < |b.probs| => if b.runs[i] <= window then b.probs[i] else 0.0)
  }

  lemma {:induction false} SelectedTotal(ps: seq<real>, keep: seq<bool>, zeroed: seq<real>)
    requires |ps| == |keep| == |zeroed|
    requires forall i :: 0 <= i < |ps| ==> zeroed[i] == if keep[i] then ps[i] else 0.0
    ensures Total(Select(ps, keep)) == Total(zeroed)
  {
    if ps != [] {
      var n := |ps| - 1;
      SelectedTotal(ps[..n], keep[..n], zeroed[..n]);
      SelectGrows(ps, keep);
      OneMoreSelected(Select(ps[..n], keep[..n]), Select(ps, keep), keep[n], ps[n]);
    }
  }

  lemma OneMoreSelected(before: seq<real>, after: seq<real>, kept: bool, p: real)
    requires after == if kept then before + [p] else before
    ensures Total(after) == Total(before) + if kept then p else 0.0
  {
    if kept {
      TotalConcat(before, [p]);
      TotalOne(p);
    }
  }

  /** The knobs of `detect`. */
  datatype Knobs = Knobs(threshold: real, window: int, minGap: int, mapDropMin: int)

  /** What one sample looks like to `detect`: the probability of a short run, and the most
      probable run length before and after. */
  datatype Readout = Readout(recent: real, prevMap: nat, map_: nat) {
    predicate Triggers(k: Knobs) { recent > k.threshold || MapCollapses(k) }

    /** The second trigger as it is coded: a drop of max(mapDropMin, prevMap // 2). */
    predicate MapCollapses(k: Knobs) {
      prevMap - map_ >= (if k.mapDropMin > prevMap / 2 then k.mapDropMin else prevMap / 2)
    }

    /** As it is documented: a drop by more than half, and by at least mapDropMin. */
    predicate MapCollapsesAsDocumented(k: Knobs) {
      2 * (prevMap - map_) > prevMap && prevMap - map_ >= k.mapDropMin
    }

    predicate TriggersAsDocumented(k: Knobs) { recent > k.threshold || MapCollapsesAsDocumented(k) }

    /** The code does more than its documentation says on a drop of exactly half, rounded
        down, that is large enough and that the first trigger does not report anyway. */
    lemma TriggersAsDocumentedIff(k: Knobs)
      ensures (Triggers(k) <==> TriggersAsDocumented(k))
         <==> !(recent <= k.threshold && prevMap - map_ == prevMap / 2 >= k.mapDropMin)
    {
      assert MapCollapses(k) && !MapCollapsesAsDocumented(k) <==> prevMap - map_ == prevMap / 2 >= k.mapDropMin;
    }
  }

  /** The samples at which `detect` fires, and the last of them. */
  function Detections(ros: seq<Readout>, k: Knobs): (r: (seq<nat>, int))
  {
    if ros == [] then ([], -k.minGap - 1)
    else
      var t := |ros| - 1;
      var (found, last) := Detections(ros[..t], k);
      if t > k.window && t - last > k.minGap && ros[t].Triggers(k) then (found + [t], t) else (found, last)
  }

  /** Sample `t` is more than the minimum gap past everything found before it. */
  ghost predicate Spaced(found: seq<nat>, t: int, k: Knobs) {
    forall d :: d in found && d < t ==> t - d > k.minGap
  }

  lemma SpacedIgnoresLater(found: seq<nat>, n: nat, t: nat, k: Knobs)
    requires t <= n
    ensures Spaced(found + [n], t, k) <==> Spaced(found, t, k)
  {
    if Spaced(found + [n], t, k) {
      forall d | d in found && d < t ensures t - d > k.minGap {
        assert d in found + [n];
      }
    }
  }

  lemma {:induction false} DetectionsAscend(ros: seq<Readout>, k: Knobs)
    ensures var (found, last) := Detections(ros, k);
      && (forall i, j :: 0 <= i < j < |found| ==> found[i] < found[j])
      && (forall d :: d in found ==> d <= last && d < |ros|)
      && if found == [] then last == -k.minGap - 1 else last in found
  {
    if ros != [] {
      var n := |ros| - 1;
      DetectionsAscend(ros[..n], k);
      var found := Detections(ros[..n], k).0;
      forall i | 0 <= i < |found| ensures found[i] < n {
        assert found[i] in found;
      }
    }
  }

  /** `detect` fires at exactly the triggering samples after the warm-up that are more than
      the minimum gap past every earlier detection. */
  lemma {:induction false} DetectsExactly(ros: seq<Readout>, k: Knobs, t: nat)
    ensures var found := Detections(ros, k).0;
      t in found <==>
        && t < |ros| && t > k.window && Spaced(found, t, k)
        && var Readout(recent, prevMap, map_) := ros[t];
           (recent > k.threshold || (prevMap - map_ >= k.mapDropMin && prevMap - map_ >= prevMap / 2))
  {
    if ros != [] {
      var n := |ros| - 1;
      DetectsExactly(ros[..n], k, t);
      DetectionsAscend(ros[..n], k);
      var found, last := Detections(ros[..n], k).0, Detections(ros[..n], k).1;
      if t == n {
        assert Spaced(found, n, k) <==> n - last > k.minGap;
      }
      if t <= n { SpacedIgnoresLater(found, n, t, k); }
    }
  }

  /** What `detect` reads off after each sample of `xs`. */
  ghost function Readouts(model: Model, xs: seq<real>, window: int): (ros: seq<Readout>)
    requires model.Valid()
    ensures |ros| == |xs|
  {
    if xs == [] then []
    else
      var before, now := model.BeliefAfter(xs[..|xs| - 1]), model.BeliefAfter(xs);
      var prevMap := if |xs| == 1 then 0 else MapRunLength(before);
      Readouts(model, xs[..|xs| - 1], window)
        + [Readout(RecentMass(now, window), prevMap, MapRunLength(now))]
  }

  lemma OneMoreReadout(ros: seq<Readout>, ro: Readout, k: Knobs)
    ensures var (found, last) := Detections(ros, k);
      Detections(ros + [ro], k) ==
        if |ros| > k.window && |ros| - last > k.minGap && ro.Triggers(k) then (found + [|ros|], |ros|)
        else (found, last)
  {
    assert (ros + [ro])[..|ros|] == ros;
  }

  lemma OneMoreSample(model: Model, xs: seq<real>, x: real, window: int)
    requires model.Valid()
    ensures var now := model.BeliefAfter(xs + [x]);
      Readouts(model, xs + [x], window) ==
        Readouts(model, xs, window)
        + [Readout(RecentMass(now, window),
                   if xs == [] then 0 else MapRunLength(model.BeliefAfter(xs)),
                   MapRunLength(now))]
  {
    assert (xs + [x])[..|xs + [x]| - 1] == xs;
  }

  lemma LastReadout(model: Model, xs: seq<real>, window: int)
    requires model.Valid() && xs != []
    ensures var n, now := |xs| - 1, model.BeliefAfter(xs);
      var ro := Readouts(model, xs, window)[n];
      && Readouts(model, xs, window)[..n] == Readouts(model, xs[..n], window)
      && ro.recent == RecentMass(now, window) && ro.map_ == MapRunLength(now)
      && ro.prevMap == if n == 0 then 0 else MapRunLength(model.BeliefAfter(xs[..n]))
  {
  }

  /** `r` is a run length of the largest probability, and the first such in the array. */
  ghost predicate IsMostProbable(b: Belief, r: nat) {
    exists i :: 0 <= i < |b.runs| == |b.probs| && b.runs[i] == r
      && (forall j :: 0 <= j < |b.probs| ==> b.probs[j] <= b.probs[i])
      && (forall j :: 0 <= j < i ==> b.probs[j] < b.probs[i])
  }

  lemma MapIsMostProbable(b: Belief)
    requires b.Aligned()
    ensures IsMostProbable(b, MapRunLength(b))
  {
    var i := ArgMax(b.probs);
    assert b.runs[i] == MapRunLength(b);
  }

  /** What is read off after a sample: the probabilities of the short runs added up, a most
      probable run length, and the one read off before. */
  lemma ReadoutMeaning(model: Model, xs: seq<real>, window: int)
    requires model.Valid() && xs != []
    ensures var n, now, ros := |xs| - 1, model.BeliefAfter(xs), Readouts(model, xs, window);
      && ros[..n] == Readouts(model, xs[..n], window)
      && ros[n].recent == Total(RecentProbs(now, window))
      && IsMostProbable(now, ros[n].map_)
      && ros[n].prevMap == if n == 0 then 0 else ros[n - 1].map_
  {
    LastReadout(model, xs, window);
    RecentIsSum(model.BeliefAfter(xs), window);
    MapIsMostProbable(model.BeliefAfter(xs));
  }

  lemma PrefixGrows(xs: seq<real>, t: nat)
    requires t < |xs|
    ensures xs[..t + 1] == xs[..t] + [xs[t]]
  {
  }

  lemma WholePrefix(xs: seq<real>)
    ensures xs[..|xs|] == xs
  {
  }

  class BOCPD {
    const model: Model
    var runs: seq<nat>
    var probs: seq<real>
    var stats: seq<Stats>
    ghost var Seen: seq<real>  // the samples since the last reset

    /** The arrays as one value. */
    function Current(): Belief
      reads this
    {
      Belief(runs, probs, stats)
    }

    ghost predicate Valid()
      reads this
    {
      model.Valid() && model.Believes(Current(), Seen)
    }

    constructor (model: Model)
      requires model.Valid()
      ensures Valid() && this.model == model && Seen == [] && Current() == model.Start()
    {
      ghost var start := model.Start();
      model.StartBelieves(start);
      this.model := model;
      runs, probs, stats, Seen := [0], [1.0], [model.prior], [];
      assert Belief([0], [1.0], [model.prior]) == start;
    }

    /** None where the source raises: an expected run length of at most one. */
    static method Create(hazardLambda: real, prior: Stats, cutoff: real, pred: Density) returns (r: Option<BOCPD>)
      requires prior.Proper() && IsDensity(pred)
      ensures r.None? <==> hazardLambda <= 1.0
      ensures r.Some? ==> fresh(r.value) && r.value.Valid() && r.value.Seen == []
                          && r.value.model == Model(prior, 1.0 / hazardLambda, cutoff, pred)
    {
      if hazardLambda <= 1.0 {
        return None;
      }
      var b := new BOCPD(Model(prior, 1.0 / hazardLambda, cutoff, pred));
      return Some(b);
    }

    method Reset()
      requires Valid()
      modifies this
      ensures Valid() && Seen == [] && Current() == model.Start()
    {
      ghost var start := model.Start();
      model.StartBelieves(start);
      runs, probs, stats, Seen := [0], [1.0], [model.prior], [];
      assert Belief([0], [1.0], [model.prior]) == start;
    }

    /** The arrays after one observation. */
    method Advance(x: real) returns (newRuns: seq<nat>, newProbs: seq<real>, newStats: seq<Stats>)
      requires model.Valid() && Model.Sound(Current())
      ensures Belief(newRuns, newProbs, newStats) == model.Observe(Current(), x)
    {
      var fit := model.Fit(stats, x);
      var joint := model.Joint(probs, fit);
      model.JointIsPositive(probs, fit);
      var total := Total(joint);  // the source resets if this is not positive; it always is
      var posterior := Divided(joint, total);
      model.PosteriorIsDistribution(Current(), x);
      model.TruncationIsDistribution(posterior);
      var keep := Mask(posterior, model.cutoff);
      var kept := Select(posterior, keep);
      newRuns := Select([0] + Model.Longer(runs), keep);
      newStats := Select([model.prior] + Model.Absorbed(stats, x), keep);
      newProbs := Divided(kept, Total(kept));
    }

    lemma Believed(newRuns: seq<nat>, newProbs: seq<real>, newStats: seq<Stats>, x: real)
      requires Valid() && Belief(newRuns, newProbs, newStats) == model.Observe(Current(), x)
      ensures model.Believes(Belief(newRuns, newProbs, newStats), Seen + [x])
      ensures model.Updates(Current(), x, Belief(newRuns, newProbs, newStats))
    {
      model.ObserveUpdates(Current(), x);
      model.ObserveBelieves(Current(), Seen, x);
    }

    /** Ingests one observation; returns the new posterior, aligned with `runs`. */
    method Update(x: real) returns (posterior: seq<real>)
      requires Valid()
      modifies this
      ensures Valid() && Seen == old(Seen) + [x]
      ensures Current() == model.Observe(old(Current()), x)
      ensures model.Updates(old(Current()), x, Current())
      ensures posterior == probs
    {
      var newRuns, newProbs, newStats := Advance(x);
      Believed(newRuns, newProbs, newStats, x);
      runs, probs, stats, Seen := newRuns, newProbs, newStats, Seen + [x];
      return probs;
    }

    /** Ingests the next sample of a stream and reads off what `Detect` looks at. */
    method Read(x: real, prevMap: nat, window: int) returns (ro: Readout)
      requires Valid() && Current() == model.BeliefAfter(Seen)
      requires prevMap == if Seen == [] then 0 else MapRunLength(Current())
      modifies this
      ensures Valid() && Seen == old(Seen) + [x] && Current() == model.BeliefAfter(Seen)
      ensures Readouts(model, Seen, window) == Readouts(model, old(Seen), window) + [ro]
      ensures ro.prevMap == prevMap && ro.map_ == MapRunLength(Current())
    {
      OneMoreSample(model, Seen, x, window);
      model.BeliefGrows(Seen, x);
      var _ := Update(x);
      ro := Readout(RecentMass(Current(), window), prevMap, MapRunLength(Current()));
    }

    /** Runs over a whole stream; returns the samples at which a changepoint fires. */
    method Detect(xs: seq<real>, k: Knobs) returns (detections: seq<nat>)
      requires Valid()
      modifies this
      ensures Valid() && Seen == xs
      ensures detections == Detections(Readouts(model, xs, k.window), k).0
    {
      Reset();
      detections := [];
      var last, prevMap := -k.minGap - 1, 0;
      ghost var ros := [];
      for t := 0 to |xs|
        invariant Valid() && Seen == xs[..t] && Current() == model.BeliefAfter(Seen)
        invariant prevMap == if Seen == [] then 0 else MapRunLength(Current())
        invariant |ros| == t && ros == Readouts(model, Seen, k.window)
        invariant (detections, last) == Detections(ros, k)
      {
        PrefixGrows(xs, t);
        var ro := Read(xs[t], prevMap, k.window);
        OneMoreReadout(ros, ro, k);
        ros := ros + [ro];
        var fired := t > k.window && t - last > k.minGap && ro.Triggers(k);
        if fired {
          detections := detections + [t];
          last := t;
        }
        prevMap := ro.map_;
      }
      WholePrefix(xs);
    }
  }
}
