/** Without truncation the detector's recursion is exact Bayesian inference: it agrees with
    the sum over every possible history of changepoints. */
module BocpdExact {
  import opened Bocpd
  import opened Sequences

  // ----- Histories -----

  /** What may have happened: after each sample the run ended or went on. */
  datatype History = End | Sample(ended: bool, rest: History) {
    function Length(): nat { if End? then 0 else 1 + rest.Length() }

    /** The run length it leaves behind, starting from `run`. */
    function FinalRun(run: nat): nat {
      if End? then run else rest.FinalRun(if ended then 0 else run + 1)
    }
  }

  /** Every history of `n` samples. */
  function Histories(n: nat): seq<History> {
    if n == 0 then [End] else Prefixed(true, Histories(n - 1)) + Prefixed(false, Histories(n - 1))
  }

  function Prefixed(ended: bool, hs: seq<History>): (ps: seq<History>)
    ensures |ps| == |hs| && forall i :: 0 <= i < |hs| ==> ps[i] == Sample(ended, hs[i])
  {
    seq(|hs|, i requires 0 <= i < |hs| => Sample(ended, hs[i]))
  }

  /** Each of them is there once. */
  lemma {:induction false} HistoriesAreAll(n: nat)
    ensures forall i, j :: 0 <= i < j < |Histories(n)| ==> Histories(n)[i] != Histories(n)[j]
    ensures forall h :: h in Histories(n) <==> h.Length() == n
  {
    if n > 0 {
      HistoriesAreAll(n - 1);
      var shorter := Histories(n - 1);
      forall h: History | h.Length() == n ensures h in Histories(n) {
        assert h.rest in shorter;
        var i :| 0 <= i < |shorter| && shorter[i] == h.rest;
        assert Prefixed(h.ended, shorter)[i] == h;
      }
    }
  }

  /** The prior after absorbing `xs` one by one. */
  function Fitted(prior: Stats, xs: seq<real>): (s: Stats)
    requires prior.Proper()
    ensures s.Proper()
  {
    if xs == [] then prior
    else
      var before := Fitted(prior, xs[..|xs| - 1]);
      Model.AbsorbProper(before, xs[|xs| - 1]);
      Absorb(before, xs[|xs| - 1])
  }

  /** The density of sample `t` when its run covers the `run` samples before it. */
  function Likelihood(m: Model, xs: seq<real>, t: nat, run: nat): real
    requires m.prior.Proper() && run <= t < |xs|
  {
    m.pred(Fitted(m.prior, xs[t - run..t]), xs[t])
  }

  /** The density of one history of the samples from `t` on: for each of them its likelihood
      in the run it belongs to, times the chance that the run ended, or went on, after it. */
  function Weight(m: Model, xs: seq<real>, t: nat, run: nat, h: History): real
    requires m.prior.Proper() && run <= t && t + h.Length() == |xs|
    decreases h
  {
    if h.End? then 1.0
    else
      Product(Product(Likelihood(m, xs, t, run), if h.ended then m.hazard else 1.0 - m.hazard),
              Weight(m, xs, t + 1, if h.ended then 0 else run + 1, h.rest))
  }

  /** The weights of those of the histories `hs` that leave run length `r`. */
  function WeightOf(m: Model, xs: seq<real>, t: nat, run: nat, r: nat, hs: seq<History>): real
    requires m.prior.Proper() && run <= t && forall h :: h in hs ==> t + h.Length() == |xs|
  {
    if hs == [] then 0.0
    else
      (if hs[0].FinalRun(run) == r then Weight(m, xs, t, run, hs[0]) else 0.0) + WeightOf(m, xs, t, run, r, hs[1..])
  }

  /** The joint density of all the samples and of run length `r` after them: the sum over
      every history that ends so. */
  function JointDensity(m: Model, xs: seq<real>, r: nat): real
    requires m.prior.Proper()
  {
    HistoriesAreAll(|xs|);
    WeightOf(m, xs, 0, 0, r, Histories(|xs|))
  }

  // ----- The same sum, one sample at a time -----

  function Mix(h: real, a: real, b: real): real { Product(h, a) + Product(1.0 - h, b) }

  /** The sum over the histories from `t` on, the common factors taken out. */
  function Ways(m: Model, xs: seq<real>, t: nat, run: nat, r: nat): real
    requires m.prior.Proper() && run <= t <= |xs|
    decreases |xs| - t
  {
    if t == |xs| then (if run == r then 1.0 else 0.0)
    else
      Product(Likelihood(m, xs, t, run),
              Mix(m.hazard, Ways(m, xs, t + 1, 0, r), Ways(m, xs, t + 1, run + 1, r)))
  }

  lemma {:induction false} WeightOfSum(m: Model, xs: seq<real>, t: nat, run: nat, r: nat,
      a: seq<History>, b: seq<History>)
    requires m.prior.Proper() && run <= t && forall h :: h in a + b ==> t + h.Length() == |xs|
    ensures WeightOf(m, xs, t, run, r, a + b) == WeightOf(m, xs, t, run, r, a) + WeightOf(m, xs, t, run, r, b)
  {
    if a == [] {
      assert a + b == b;
    } else {
      assert (a + b)[1..] == a[1..] + b;
      WeightOfSum(m, xs, t, run, r, a[1..], b);
    }
  }

  /** A first sample multiplies all weights alike. */
  lemma {:induction false} WeightOfPrefixed(m: Model, xs: seq<real>, t: nat, run: nat, r: nat,
      ended: bool, hs: seq<History>)
    requires m.prior.Proper() && run <= t < |xs| && forall h :: h in hs ==> t + 1 + h.Length() == |xs|
    ensures (forall h :: h in Prefixed(ended, hs) ==> t + h.Length() == |xs|)
    ensures WeightOf(m, xs, t, run, r, Prefixed(ended, hs))
         == Product(Product(Likelihood(m, xs, t, run), if ended then m.hazard else 1.0 - m.hazard),
                    WeightOf(m, xs, t + 1, if ended then 0 else run + 1, r, hs))
  {
    if hs != [] {
      assert Prefixed(ended, hs)[1..] == Prefixed(ended, hs[1..]);
      WeightOfPrefixed(m, xs, t, run, r, ended, hs[1..]);
      var c := Product(Likelihood(m, xs, t, run), if ended then m.hazard else 1.0 - m.hazard);
      var run' := if ended then 0 else run + 1;
      Distributes(c, if hs[0].FinalRun(run') == r then Weight(m, xs, t + 1, run', hs[0]) else 0.0,
                  WeightOf(m, xs, t + 1, run', r, hs[1..]));
    }
  }

  lemma Distributes(c: real, a: real, b: real)
    ensures Product(c, a + b) == Product(c, a) + Product(c, b)
    ensures Product(c, 0.0) == 0.0
  {
  }

  lemma BothBranches(m: Model, xs: seq<real>, t: nat, run: nat, r: nat, hs: seq<History>)
    requires m.prior.Proper() && run <= t < |xs| && forall h :: h in hs ==> t + 1 + h.Length() == |xs|
    ensures forall h :: h in Prefixed(true, hs) + Prefixed(false, hs) ==> t + h.Length() == |xs|
    ensures WeightOf(m, xs, t, run, r, Prefixed(true, hs) + Prefixed(false, hs))
         == Product(Likelihood(m, xs, t, run),
                    Mix(m.hazard, WeightOf(m, xs, t + 1, 0, r, hs), WeightOf(m, xs, t + 1, run + 1, r, hs)))
  {
    WeightOfPrefixed(m, xs, t, run, r, true, hs);
    WeightOfPrefixed(m, xs, t, run, r, false, hs);
    WeightOfSum(m, xs, t, run, r, Prefixed(true, hs), Prefixed(false, hs));
    MixFactor(Likelihood(m, xs, t, run), m.hazard,
              WeightOf(m, xs, t + 1, 0, r, hs), WeightOf(m, xs, t + 1, run + 1, r, hs));
  }

  lemma EndWeight(m: Model, xs: seq<real>, run: nat, r: nat)
    requires m.prior.Proper() && run <= |xs|
    ensures WeightOf(m, xs, |xs|, run, r, [End]) == if run == r then 1.0 else 0.0
  {
    var one: seq<History> := [End];
    assert one[1..] == [];
  }

  lemma {:induction false} WaysIsSum(m: Model, xs: seq<real>, t: nat, run: nat, r: nat, hs: seq<History>)
    requires m.prior.Proper() && run <= t <= |xs| && hs == Histories(|xs| - t)
    ensures forall h :: h in hs ==> t + h.Length() == |xs|
    ensures Ways(m, xs, t, run, r) == WeightOf(m, xs, t, run, r, hs)
    decreases |xs| - t
  {
    HistoriesAreAll(|xs| - t);
    if t == |xs| {
      EndWeight(m, xs, run, r);
    } else {
      var shorter := Histories(|xs| - t - 1);
      WaysIsSum(m, xs, t + 1, 0, r, shorter);
      WaysIsSum(m, xs, t + 1, run + 1, r, shorter);
      BothBranches(m, xs, t, run, r, shorter);
    }
  }

  lemma MixFactor(f: real, h: real, a: real, b: real)
    ensures Product(f, Mix(h, a, b)) == Product(Product(f, h), a) + Product(Product(f, 1.0 - h), b)
  {
    assert f * (h * a + (1.0 - h) * b) == (f * h) * a + (f * (1.0 - h)) * b;
  }

  /** For every run length possible at `t`. */
  function WaysAt(m: Model, xs: seq<real>, t: nat, r: nat): (ws: seq<real>)
    requires m.prior.Proper() && t <= |xs|
    ensures |ws| == t + 1 && forall i :: 0 <= i <= t ==> ws[i] == Ways(m, xs, t, i, r)
  {
    seq(t + 1, i requires 0 <= i <= t => Ways(m, xs, t, i, r))
  }

  // ----- Sums of products -----

  function Dot(ps: seq<real>, vs: seq<real>): real
    requires |ps| == |vs|
  {
    if ps == [] then 0.0 else Dot(ps[..|ps| - 1], vs[..|ps| - 1]) + Product(ps[|ps| - 1], vs[|ps| - 1])
  }

  lemma {:induction false} DotFront(p: real, ps: seq<real>, v: real, vs: seq<real>)
    requires |ps| == |vs|
    ensures Dot([p] + ps, [v] + vs) == Product(p, v) + Dot(ps, vs)
  {
    if ps == [] {
      assert ([p] + ps)[..0] == [];
    } else {
      var n := |ps| - 1;
      DotFront(p, ps[..n], v, vs[..n]);
      assert ([p] + ps)[..n + 1] == [p] + ps[..n] && ([v] + vs)[..n + 1] == [v] + vs[..n];
    }
  }

  lemma QuotientProduct(a: real, b: real, m: real)
    requires m != 0.0
    ensures Product(a / m, b) == Product(a, b) / m
  {
    var q := a / m;
    assert q * m == a;
    assert (q * b) * m == a * b;
  }

  lemma {:induction false} DotDivided(ps: seq<real>, vs: seq<real>, m: real)
    requires |ps| == |vs| && m != 0.0
    ensures Dot(Divided(ps, m), vs) == Dot(ps, vs) / m
  {
    if ps != [] {
      var n := |ps| - 1;
      DotDivided(ps[..n], vs[..n], m);
      assert Divided(ps, m)[..n] == Divided(ps[..n], m);
      QuotientProduct(ps[n], vs[n], m);
      SplitQuotient(Dot(ps[..n], vs[..n]), Product(ps[n], vs[n]), m);
    }
  }

  /** One entry of the sum below. */
  lemma MixEntry(p: real, f: real, h: real, v0: real, v: real)
    ensures Product(p, Product(f, Mix(h, v0, v)))
         == Product(Product(Product(p, f), h), v0) + Product(Product(Product(p, f), 1.0 - h), v)
  {
    var w := p * f;
    assert p * (f * (h * v0 + (1.0 - h) * v)) == w * (h * v0 + (1.0 - h) * v);
    assert w * (h * v0) == (w * h) * v0;
    assert w * ((1.0 - h) * v) == (w * (1.0 - h)) * v;
  }

  /** The weights paired with the future: a share of the fresh run, and the rest. */
  function Pushed(weights: seq<real>, h: real, v0: real, vs: seq<real>): real
    requires |weights| == |vs|
  {
    Product(Product(Total(weights), h), v0) + Dot(Scaled(weights, 1.0 - h), vs)
  }

  /** Pushing the sum through one observation. */
  lemma {:induction false} MixDot(ps: seq<real>, fit: seq<real>, h: real, v0: real, vs: seq<real>, us: seq<real>)
    requires |ps| == |fit| == |vs| == |us|
    requires forall i :: 0 <= i < |ps| ==> us[i] == Product(fit[i], Mix(h, v0, vs[i]))
    ensures Dot(ps, us) == Pushed(Times(ps, fit), h, v0, vs)
  {
    if ps != [] {
      var n := |ps| - 1;
      MixDot(ps[..n], fit[..n], h, v0, vs[..n], us[..n]);
      assert Times(ps, fit)[..n] == Times(ps[..n], fit[..n]);
      assert Scaled(Times(ps, fit), 1.0 - h)[..n] == Scaled(Times(ps[..n], fit[..n]), 1.0 - h);
      MixEntry(ps[n], fit[n], h, v0, vs[n]);
      var w, last := Total(Times(ps[..n], fit[..n])), Product(ps[n], fit[n]);
      Distribute(w, last, h);
      Distribute(Product(w, h), Product(last, h), v0);
    }
  }

  // ----- Nothing is truncated -----

  lemma {:induction false} KeepsEverything<T>(xs: seq<T>, keep: seq<bool>)
    requires |xs| == |keep| && forall i :: 0 <= i < |keep| ==> keep[i]
    ensures Select(xs, keep) == xs
  {
    if xs != [] {
      var n := |xs| - 1;
      KeepsEverything(xs[..n], keep[..n]);
      SelectGrows(xs, keep);
    }
  }

  lemma DividedByOne(ps: seq<real>)
    ensures Divided(ps, 1.0) == ps
  {
  }

  /** With nothing below the cutoff an observation only lengthens the arrays. */
  lemma ObserveKeepsAll(m: Model, b: Belief, x: real)
    requires m.Valid() && Model.Sound(b)
    requires m.cutoff <= 0.0 || forall i :: 1 <= i <= |b.probs| ==> m.Posterior(b, x)[i] >= m.cutoff
    ensures m.Observe(b, x)
         == Belief([0] + Model.Longer(b.runs), m.Posterior(b, x), [m.prior] + Model.Absorbed(b.stats, x))
  {
    var posterior := m.Posterior(b, x);
    m.PosteriorIsDistribution(b, x);
    var keep := Mask(posterior, m.cutoff);
    KeepsEverything(posterior, keep);
    KeepsEverything([0] + Model.Longer(b.runs), keep);
    KeepsEverything([m.prior] + Model.Absorbed(b.stats, x), keep);
    DividedByOne(posterior);
  }

  /** Every run length up to `t` is there, with the fit of its own samples. */
  ghost predicate Full(m: Model, b: Belief, xs: seq<real>, t: nat)
    requires m.prior.Proper() && t <= |xs|
  {
    && b.Aligned() && |b.runs| == t + 1
    && forall i :: 0 <= i <= t ==> b.runs[i] == i && b.stats[i] == Fitted(m.prior, xs[t - i..t])
  }

  lemma ObserveIsFull(m: Model, b: Belief, xs: seq<real>, t: nat)
    requires m.Valid() && m.cutoff <= 0.0 && Model.Sound(b) && t < |xs| && Full(m, b, xs, t)
    ensures Full(m, m.Observe(b, xs[t]), xs, t + 1)
  {
    ObserveKeepsAll(m, b, xs[t]);
    FullGrows(m, b, xs, t, m.Posterior(b, xs[t]));
  }

  lemma FullGrows(m: Model, b: Belief, xs: seq<real>, t: nat, probs: seq<real>)
    requires m.prior.Proper() && Model.Sound(b) && t < |xs| && Full(m, b, xs, t) && |probs| == t + 2
    ensures Full(m, Belief([0] + Model.Longer(b.runs), probs, [m.prior] + Model.Absorbed(b.stats, xs[t])), xs, t + 1)
  {
    forall i | 1 <= i <= t + 1
      ensures ([m.prior] + Model.Absorbed(b.stats, xs[t]))[i] == Fitted(m.prior, xs[t + 1 - i..t + 1])
    {
      OneMoreFitted(m.prior, xs, t + 1 - i, t);
    }
  }

  lemma OneMoreFitted(prior: Stats, xs: seq<real>, from: nat, t: nat)
    requires prior.Proper() && from <= t < |xs|
    ensures Fitted(prior, xs[from..t + 1]) == Absorb(Fitted(prior, xs[from..t]), xs[t])
  {
    FittedGrows(prior, xs[from..t], xs[t], xs[from..t + 1]);
  }

  lemma FittedGrows(prior: Stats, past: seq<real>, x: real, grown: seq<real>)
    requires prior.Proper() && grown == past + [x]
    ensures Fitted(prior, grown) == Absorb(Fitted(prior, past), x)
  {
    assert grown[..|grown| - 1] == past;
  }

  /** The density of the samples so far: the product of the normalisers. */
  ghost function Evidence(m: Model, xs: seq<real>): real
    requires m.Valid()
  {
    if xs == [] then 1.0
    else Product(Evidence(m, xs[..|xs| - 1]), Normaliser(m, m.BeliefAfter(xs[..|xs| - 1]), xs[|xs| - 1]))
  }

  ghost function Normaliser(m: Model, b: Belief, x: real): (z: real)
    requires m.Valid() && Model.Sound(b)
    ensures z > 0.0
  {
    m.JointIsPositive(b.probs, m.Fit(b.stats, x));
    Total(m.Joint(b.probs, m.Fit(b.stats, x)))
  }

  /** The joint paired with the future. */
  lemma JointDot(m: Model, probs: seq<real>, fit: seq<real>, v0: real, vs: seq<real>)
    requires |probs| == |fit| == |vs|
    ensures Dot(m.Joint(probs, fit), [v0] + vs) == Pushed(Times(probs, fit), m.hazard, v0, vs)
  {
    var weights := Times(probs, fit);
    TotalScaled(weights, m.hazard);
    DotFront(Total(Scaled(weights, m.hazard)), Scaled(weights, 1.0 - m.hazard), v0, vs);
  }

  /** Observing divides by the normaliser what the past and the future pair up to. */
  lemma StepPairing(m: Model, b: Belief, xs: seq<real>, t: nat, r: nat)
    requires m.Valid() && m.cutoff <= 0.0 && Model.Sound(b) && t < |xs| && Full(m, b, xs, t)
    ensures |m.Posterior(b, xs[t])| == t + 2
    ensures Dot(m.Posterior(b, xs[t]), WaysAt(m, xs, t + 1, r))
         == Dot(b.probs, WaysAt(m, xs, t, r)) / Normaliser(m, b, xs[t])
  {
    var fit, next, us := m.Fit(b.stats, xs[t]), WaysAt(m, xs, t + 1, r), WaysAt(m, xs, t, r);
    WaysStep(m, b, xs, t, r);
    JointPairing(m, b.probs, fit, next, us);
    DotDivided(m.Joint(b.probs, fit), next, Normaliser(m, b, xs[t]));
  }

  ghost predicate OneStepBack(m: Model, fit: seq<real>, next: seq<real>, us: seq<real>) {
    && |fit| == |us| == |next| - 1
    && forall i :: 0 <= i < |us| ==> us[i] == Product(fit[i], Mix(m.hazard, next[0], next[i + 1]))
  }

  lemma WaysStep(m: Model, b: Belief, xs: seq<real>, t: nat, r: nat)
    requires m.prior.Proper() && t < |xs| && Full(m, b, xs, t)
    ensures OneStepBack(m, m.Fit(b.stats, xs[t]), WaysAt(m, xs, t + 1, r), WaysAt(m, xs, t, r))
  {
  }

  lemma JointPairing(m: Model, probs: seq<real>, fit: seq<real>, next: seq<real>, us: seq<real>)
    requires |probs| == |fit| && OneStepBack(m, fit, next, us)
    ensures Dot(m.Joint(probs, fit), next) == Dot(probs, us)
  {
    SplitFirst(next);
    JointDot(m, probs, fit, next[0], next[1..]);
    MixDot(probs, fit, m.hazard, next[0], next[1..], us);
  }

  lemma Restored(e: real, d: real, z: real)
    requires z != 0.0
    ensures Product(Product(e, z), d / z) == Product(e, d)
  {
    var q := d / z;
    assert q * z == d;
    assert (e * z) * q == e * (q * z);
  }

  /** What the belief makes of the past and the enumeration of the future pair up to the
      joint density; `e` is the density of the past. */
  ghost predicate Paired(m: Model, b: Belief, e: real, xs: seq<real>, t: nat, r: nat)
    requires m.prior.Proper() && t <= |xs|
  {
    Full(m, b, xs, t) && Product(e, Dot(b.probs, WaysAt(m, xs, t, r))) == JointDensity(m, xs, r)
  }

  lemma PairedStep(m: Model, b: Belief, e: real, xs: seq<real>, t: nat, r: nat)
    requires m.Valid() && m.cutoff <= 0.0 && Model.Sound(b) && t < |xs| && Paired(m, b, e, xs, t, r)
    ensures Paired(m, m.Observe(b, xs[t]), Product(e, Normaliser(m, b, xs[t])), xs, t + 1, r)
  {
    ObserveIsFull(m, b, xs, t);
    ObserveKeepsAll(m, b, xs[t]);
    StepPairing(m, b, xs, t, r);
    Restored(e, Dot(b.probs, WaysAt(m, xs, t, r)), Normaliser(m, b, xs[t]));
  }

  lemma EvidenceGrows(m: Model, xs: seq<real>, x: real)
    requires m.Valid()
    ensures Evidence(m, xs + [x]) == Product(Evidence(m, xs), Normaliser(m, m.BeliefAfter(xs), x))
  {
    assert (xs + [x])[..|xs + [x]| - 1] == xs;
  }

  lemma PairedGrows(m: Model, past: seq<real>, xs: seq<real>, t: nat, r: nat, grown: seq<real>)
    requires m.Valid() && m.cutoff <= 0.0 && t < |xs| && grown == past + [xs[t]]
    requires Paired(m, m.BeliefAfter(past), Evidence(m, past), xs, t, r)
    ensures Paired(m, m.BeliefAfter(grown), Evidence(m, grown), xs, t + 1, r)
  {
    m.BeliefGrows(past, xs[t]);
    EvidenceGrows(m, past, xs[t]);
    PairedStep(m, m.BeliefAfter(past), Evidence(m, past), xs, t, r);
  }

  lemma StartPairing(m: Model, xs: seq<real>, r: nat)
    requires m.Valid()
    ensures Paired(m, m.Start(), 1.0, xs, 0, r)
  {
    assert xs[0..0] == [];
    WaysIsSum(m, xs, 0, 0, r, Histories(|xs|));
    DotOfOne(m.Start().probs, WaysAt(m, xs, 0, r));
  }

  lemma DotOfOne(ps: seq<real>, vs: seq<real>)
    requires ps == [1.0] && |vs| == 1
    ensures Product(1.0, Dot(ps, vs)) == vs[0]
  {
    var none: seq<real> := [];
    assert ps[..0] == none && vs[..0] == none && Dot(none, none) == 0.0;
  }

  lemma {:induction false} AlwaysPaired(m: Model, xs: seq<real>, past: seq<real>, t: nat, r: nat)
    requires m.Valid() && m.cutoff <= 0.0 && |past| == t && past <= xs
    ensures Paired(m, m.BeliefAfter(past), Evidence(m, past), xs, t, r)
    decreases t
  {
    if t == 0 {
      StartPairing(m, xs, r);
    } else {
      var before := past[..t - 1];
      LastOfPrefix(past, before, xs, t - 1);
      AlwaysPaired(m, xs, before, t - 1, r);
      PairedGrows(m, before, xs, t - 1, r, past);
    }
  }

  lemma LastOfPrefix<T>(past: seq<T>, before: seq<T>, xs: seq<T>, n: nat)
    requires past <= xs && |past| == n + 1 && before == past[..n]
    ensures |before| == n && before <= xs && past == before + [xs[n]]
  {
  }

  /** At the end the enumeration picks out one entry. */
  lemma {:induction false} DotPicks(ps: seq<real>, vs: seq<real>, r: nat)
    requires |ps| == |vs| && forall i :: 0 <= i < |vs| ==> vs[i] == if i == r then 1.0 else 0.0
    ensures Dot(ps, vs) == if r < |ps| then ps[r] else 0.0
  {
    if ps != [] {
      var n := |ps| - 1;
      DotPicks(ps[..n], vs[..n], r);
    }
  }

  // ----- All histories together -----

  function TotalWeight(m: Model, xs: seq<real>, hs: seq<History>): real
    requires m.prior.Proper() && forall h :: h in hs ==> h.Length() == |xs|
  {
    if hs == [] then 0.0 else Weight(m, xs, 0, 0, hs[0]) + TotalWeight(m, xs, hs[1..])
  }

  /** The density of all the samples, whatever happened. */
  function SamplesDensity(m: Model, xs: seq<real>): real
    requires m.prior.Proper()
  {
    HistoriesAreAll(|xs|);
    TotalWeight(m, xs, Histories(|xs|))
  }

  /** Weights sorted by the run length they leave. */
  function ByRun(m: Model, xs: seq<real>, hs: seq<History>, n: nat): (ws: seq<real>)
    requires m.prior.Proper() && forall h :: h in hs ==> h.Length() == |xs|
    ensures |ws| == n && forall r :: 0 <= r < n ==> ws[r] == WeightOf(m, xs, 0, 0, r, hs)
  {
    seq(n, r requires 0 <= r < n => WeightOf(m, xs, 0, 0, r, hs))
  }

  lemma {:induction false} TotalZeros(ps: seq<real>)
    requires forall i :: 0 <= i < |ps| ==> ps[i] == 0.0
    ensures Total(ps) == 0.0
  {
    if ps != [] { TotalZeros(ps[..|ps| - 1]); }
  }

  /** Adding `w` to one entry adds it to the total. */
  lemma {:induction false} TotalChanges(ps: seq<real>, qs: seq<real>, k: nat, w: real)
    requires |ps| == |qs| && k < |ps|
    requires forall i :: 0 <= i < |ps| ==> qs[i] == (if i == k then w else 0.0) + ps[i]
    ensures Total(qs) == w + Total(ps)
  {
    var n := |ps| - 1;
    if k < n {
      TotalChanges(ps[..n], qs[..n], k, w);
    } else {
      assert ps[..n] == qs[..n];
    }
  }

  lemma {:induction false} RunsPartition(m: Model, xs: seq<real>, hs: seq<History>)
    requires m.prior.Proper() && forall h :: h in hs ==> h.Length() == |xs|
    ensures Total(ByRun(m, xs, hs, |xs| + 1)) == TotalWeight(m, xs, hs)
  {
    if hs == [] {
      TotalZeros(ByRun(m, xs, hs, |xs| + 1));
    } else {
      RunsPartition(m, xs, hs[1..]);
      FinalRunBound(hs[0], 0);
      TotalChanges(ByRun(m, xs, hs[1..], |xs| + 1), ByRun(m, xs, hs, |xs| + 1),
                   hs[0].FinalRun(0), Weight(m, xs, 0, 0, hs[0]));
    }
  }

  lemma {:induction false} FinalRunBound(h: History, run: nat)
    ensures h.FinalRun(run) <= run + h.Length()
  {
    if h.Sample? { FinalRunBound(h.rest, if h.ended then 0 else run + 1); }
  }

  lemma JointsTotal(m: Model, xs: seq<real>)
    requires m.prior.Proper()
    ensures Total(Joints(m, xs, |xs| + 1)) == SamplesDensity(m, xs)
  {
    HistoriesAreAll(|xs|);
    RunsPartition(m, xs, Histories(|xs|));
    assert Joints(m, xs, |xs| + 1) == ByRun(m, xs, Histories(|xs|), |xs| + 1);
  }

  function Joints(m: Model, xs: seq<real>, n: nat): (js: seq<real>)
    requires m.prior.Proper()
    ensures |js| == n && forall r :: 0 <= r < n ==> js[r] == JointDensity(m, xs, r)
  {
    seq(n, r requires 0 <= r < n => JointDensity(m, xs, r))
  }

  lemma ShareOf(p: real, e: real)
    requires e > 0.0
    ensures Product(p, e) / Product(1.0, e) == p
  {
    var q := Product(p, e) / Product(1.0, e);
    assert q * e == p * e;
    assert (q - p) * e == 0.0;
  }

  lemma EndPaired(m: Model, b: Belief, e: real, xs: seq<real>, r: nat)
    requires m.prior.Proper() && r <= |xs| && Paired(m, b, e, xs, |xs|, r)
    ensures |b.probs| == |b.runs| == |xs| + 1 && b.runs[r] == r && JointDensity(m, xs, r) == Product(b.probs[r], e)
  {
    EndDot(m, b.probs, xs, r);
    Commutes(e, b.probs[r]);
  }

  lemma EndDot(m: Model, probs: seq<real>, xs: seq<real>, r: nat)
    requires m.prior.Proper() && r <= |xs| && |probs| == |xs| + 1
    ensures Dot(probs, WaysAt(m, xs, |xs|, r)) == probs[r]
  {
    DotPicks(probs, WaysAt(m, xs, |xs|, r), r);
  }

  lemma Commutes(a: real, b: real)
    ensures Product(a, b) == Product(b, a)
  {
  }

  lemma ShareOfJoint(m: Model, b: Belief, e: real, xs: seq<real>, r: nat)
    requires m.prior.Proper() && r <= |xs| && e > 0.0 && Total(b.probs) == 1.0
    requires forall i :: 0 <= i <= |xs| ==> Paired(m, b, e, xs, |xs|, i)
    ensures var total := Total(Joints(m, xs, |xs| + 1));
      |b.probs| == |b.runs| == |xs| + 1 && b.runs[r] == r && total > 0.0 && b.probs[r] == JointDensity(m, xs, r) / total
  {
    forall i | 0 <= i <= |xs|
      ensures |b.probs| == |b.runs| == |xs| + 1 && b.runs[i] == i && JointDensity(m, xs, i) == Product(b.probs[i], e)
    {
      EndPaired(m, b, e, xs, i);
    }
    assert Joints(m, xs, |xs| + 1) == Scaled(b.probs, e);
    TotalScaled(b.probs, e);
    ShareOf(b.probs[r], e);
  }

  lemma {:induction false} EvidencePositive(m: Model, xs: seq<real>)
    requires m.Valid()
    ensures Evidence(m, xs) > 0.0
  {
    if xs != [] {
      var before, x := xs[..|xs| - 1], xs[|xs| - 1];
      EvidencePositive(m, before);
      ProductPositive(Evidence(m, before), Normaliser(m, m.BeliefAfter(before), x));
    }
  }

  /** The reported probability of each run length is the share of the histories that leave it
      in the density of all histories, which is the posterior by Bayes' rule. */
  lemma PosteriorIsBayes(m: Model, xs: seq<real>, r: nat)
    requires m.Valid() && m.cutoff <= 0.0 && r <= |xs|
    ensures var b := m.BeliefAfter(xs);
      |b.probs| == |b.runs| == |xs| + 1 && b.runs[r] == r
      && SamplesDensity(m, xs) > 0.0 && b.probs[r] == JointDensity(m, xs, r) / SamplesDensity(m, xs)
  {
    forall i | 0 <= i <= |xs| ensures Paired(m, m.BeliefAfter(xs), Evidence(m, xs), xs, |xs|, i) {
      AlwaysPaired(m, xs, xs, |xs|, i);
    }
    m.BeliefIsFaithful(xs);
    EvidencePositive(m, xs);
    ShareOfJoint(m, m.BeliefAfter(xs), Evidence(m, xs), xs, r);
    JointsTotal(m, xs);
  }
}
