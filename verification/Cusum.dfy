/** The CUSUM changepoint detector.  Doubles are reals; the square root is any function
    that is positive and squares back on positive arguments.

    A detector reduces the samples of a stream to residuals (how far each sample is from
    the running mean, in running standard deviations) and sums those residuals two ways.
    The two halves are specified apart: `Residuals` over samples, `SumsAfter` over
    residuals. */
module Cusum {

  type Sqrt = real -> real

  ghost predicate IsSqrt(sqrt: Sqrt) {
    forall v :: v > 0.0 ==> sqrt(v) > 0.0 && sqrt(v) * sqrt(v) == v
  }

  function Max(a: real, b: real): real { if a < b then b else a }

  function Min(a: real, b: real): real { if b < a then b else a }

  function Abs(a: real): real { if a < 0.0 then -a else a }

  /** The running estimate of one stream. */
  datatype Moments = Moments(mean: real, variance: real)

  /** The two one-sided cumulative sums of one stream. */
  datatype Sums = Sums(pos: real, neg: real)

  datatype State = State(count: nat, mean: real, variance: real, sPos: real, sNeg: real)

  datatype Config = Config(alpha: real, k: real, h: real, warmup: nat) {

    // ----- From samples to residuals -----

    /** The exponentially weighted mean and variance after one more sample. */
    function Blend(m: Moments, x: real): Moments {
      var diff := x - m.mean;
      Moments((1.0 - alpha) * m.mean + alpha * x,
              (1.0 - alpha) * m.variance + alpha * diff * diff)
    }

    /** The running estimate after the samples `xs`; the first one seeds the mean. */
    function MomentsAfter(xs: seq<real>): Moments
      requires xs != []
    {
      var n, x := |xs| - 1, xs[|xs| - 1];
      if n == 0 then Moments(x, 0.0) else Blend(MomentsAfter(xs[..n]), x)
    }

    /** `x` against an estimate made before it was seen. */
    ghost function Residual(m: Moments, x: real, sqrt: Sqrt): real
      requires IsSqrt(sqrt)
    {
      if m.variance > 0.0 then (x - m.mean) / sqrt(m.variance) else 0.0
    }

    /** Sample number `n`, counted from 1, is past the seed and past the warm-up. */
    predicate Evaluated(n: nat) { n >= 2 && n > warmup }

    /** The residuals of the evaluated samples of `xs`, in order. */
    ghost function Residuals(xs: seq<real>, sqrt: Sqrt): seq<real>
      requires IsSqrt(sqrt)
    {
      if !Evaluated(|xs|) then []
      else
        var n := |xs| - 1;
        Residuals(xs[..n], sqrt) + [Residual(MomentsAfter(xs[..n]), xs[n], sqrt)]
    }

    // ----- From residuals to alarms -----

    /** Both sums after one more residual, before any reset. */
    function Accumulate(s: Sums, r: real): Sums {
      Sums(Max(0.0, s.pos + r - k), Min(0.0, s.neg + r + k))
    }

    predicate Alarm(s: Sums) { s.pos > h || s.neg < -h }

    /** Both sums after the residuals `rs`, reset after every alarm. */
    function SumsAfter(rs: seq<real>): Sums {
      if rs == [] then Sums(0.0, 0.0)
      else
        var s := Accumulate(SumsAfter(rs[..|rs| - 1]), rs[|rs| - 1]);
        if Alarm(s) then Sums(0.0, 0.0) else s
    }

    /** The last of the residuals `rs` fires. */
    predicate Fires(rs: seq<real>) {
      rs != [] && Alarm(Accumulate(SumsAfter(rs[..|rs| - 1]), rs[|rs| - 1]))
    }

    // ----- The recursion is a maximum over suffixes -----

    /** The residuals since the last alarm. */
    function SinceReset(rs: seq<real>): seq<real> {
      if rs == [] || Fires(rs) then [] else SinceReset(rs[..|rs| - 1]) + [rs[|rs| - 1]]
    }

    /** The sum of `r - slack` over `rs`. */
    static function Excess(rs: seq<real>, slack: real): real {
      if rs == [] then 0.0 else Excess(rs[..|rs| - 1], slack) + rs[|rs| - 1] - slack
    }

    /** `top` is the largest sum of `r - k` over a suffix of `rs`, the empty one included. */
    ghost predicate IsTopSuffix(rs: seq<real>, top: real) {
      && (exists j :: 0 <= j <= |rs| && Excess(rs[j..], k) == top)
      && (forall j :: 0 <= j <= |rs| ==> Excess(rs[j..], k) <= top)
    }

    /** `bottom` is the smallest sum of `r + k` over a suffix of `rs`. */
    ghost predicate IsBottomSuffix(rs: seq<real>, bottom: real) {
      && (exists j :: 0 <= j <= |rs| && Excess(rs[j..], -k) == bottom)
      && (forall j :: 0 <= j <= |rs| ==> Excess(rs[j..], -k) >= bottom)
    }

    static lemma SuffixesOfLonger(rs: seq<real>, r: real, slack: real)
      ensures forall j :: 0 <= j <= |rs| ==>
        Excess((rs + [r])[j..], slack) == Excess(rs[j..], slack) + r - slack
      ensures (rs + [r])[|rs| + 1..] == []
    {
      forall j | 0 <= j <= |rs|
        ensures Excess((rs + [r])[j..], slack) == Excess(rs[j..], slack) + r - slack
      {
        var longer := (rs + [r])[j..];
        assert longer[..|longer| - 1] == rs[j..];
      }
    }

    lemma ExtremesGrow(rs: seq<real>, r: real, s: Sums)
      requires IsTopSuffix(rs, s.pos) && IsBottomSuffix(rs, s.neg)
      ensures IsTopSuffix(rs + [r], Accumulate(s, r).pos)
      ensures IsBottomSuffix(rs + [r], Accumulate(s, r).neg)
    {
      TopGrows(rs, r, s.pos);
      BottomGrows(rs, r, s.neg);
    }

    lemma TopGrows(rs: seq<real>, r: real, top: real)
      requires IsTopSuffix(rs, top)
      ensures IsTopSuffix(rs + [r], Max(0.0, top + r - k))
    {
      SuffixesOfLonger(rs, r, k);
      var i :| 0 <= i <= |rs| && Excess(rs[i..], k) == top;
      assert Excess((rs + [r])[i..], k) == top + r - k;
      assert Excess((rs + [r])[|rs| + 1..], k) == 0.0;
    }

    lemma BottomGrows(rs: seq<real>, r: real, bottom: real)
      requires IsBottomSuffix(rs, bottom)
      ensures IsBottomSuffix(rs + [r], Min(0.0, bottom + r + k))
    {
      SuffixesOfLonger(rs, r, -k);
      var i :| 0 <= i <= |rs| && Excess(rs[i..], -k) == bottom;
      assert Excess((rs + [r])[i..], -k) == bottom + r + k;
      assert Excess((rs + [r])[|rs| + 1..], -k) == 0.0;
    }

    lemma {:induction false} SumsAreSuffixExtremes(rs: seq<real>)
      ensures IsTopSuffix(SinceReset(rs), SumsAfter(rs).pos)
      ensures IsBottomSuffix(SinceReset(rs), SumsAfter(rs).neg)
    {
      if rs == [] || Fires(rs) {
        var none: seq<real> := [];
        assert none[0..] == none;
        assert Excess(none[0..], k) == 0.0 == Excess(none[0..], -k);
      } else {
        var before := rs[..|rs| - 1];
        SumsAreSuffixExtremes(before);
        ExtremesGrow(SinceReset(before), rs[|rs| - 1], SumsAfter(before));
      }
    }

    /** A residual fires exactly when some non-empty run of residuals ending with it, all
        since the last alarm, has sum(r - k) > h or sum(r + k) < -h. */
    lemma FiresIffSomeSuffix(rs: seq<real>, r: real)
      requires h >= 0.0
      ensures
        var recent := SinceReset(rs) + [r];
        Fires(rs + [r]) <==>
          exists j :: 0 <= j < |recent| && (Excess(recent[j..], k) > h || Excess(recent[j..], -k) < -h)
    {
      var s := Accumulate(SumsAfter(rs), r);
      assert (rs + [r])[..|rs + [r]| - 1] == rs && (Fires(rs + [r]) <==> Alarm(s));
      SumsAreSuffixExtremes(rs);
      ExtremesGrow(SinceReset(rs), r, SumsAfter(rs));
      AlarmIffSomeSuffix(SinceReset(rs) + [r], s);
    }

    lemma AlarmIffSomeSuffix(recent: seq<real>, s: Sums)
      requires h >= 0.0 && IsTopSuffix(recent, s.pos) && IsBottomSuffix(recent, s.neg)
      ensures Alarm(s) <==>
        exists j :: 0 <= j < |recent| && (Excess(recent[j..], k) > h || Excess(recent[j..], -k) < -h)
    {
      assert recent[|recent|..] == [] && Excess(recent[|recent|..], k) == 0.0 == Excess(recent[|recent|..], -k);
    }

    // ----- How often it can fire -----

    /** `d` added up n times; `TimesIsProduct` says this is n * d. */
    static function Times(n: nat, d: real): real {
      if n == 0 then 0.0 else Times(n - 1, d) + d
    }

    static lemma {:induction false} TimesIsProduct(n: nat, d: real)
      ensures Times(n, d) == n as real * d
    {
      if n > 0 { TimesIsProduct(n - 1, d); }
    }

    function FireCount(rs: seq<real>): nat {
      if rs == [] then 0 else FireCount(rs[..|rs| - 1]) + if Fires(rs) then 1 else 0
    }

    /** The total of max(0, |r| - k). */
    function OutlyingMass(rs: seq<real>): real {
      if rs == [] then 0.0 else OutlyingMass(rs[..|rs| - 1]) + Max(0.0, Abs(rs[|rs| - 1]) - k)
    }

    /** `h` added once per alarm. */
    function AlarmCost(rs: seq<real>): real {
      if rs == [] then 0.0 else AlarmCost(rs[..|rs| - 1]) + if Fires(rs) then h else 0.0
    }

    lemma {:induction false} CostIsTimes(rs: seq<real>)
      ensures AlarmCost(rs) == Times(FireCount(rs), h)
    {
      if rs != [] { CostIsTimes(rs[..|rs| - 1]); }
    }

    /** A residual raises the two sums by at most its outlying mass. */
    lemma PayStep(s: Sums, r: real)
      requires s.pos >= 0.0 >= s.neg && k >= 0.0 && h >= 0.0
      ensures var acc := Accumulate(s, r);
        && acc.pos >= 0.0 >= acc.neg
        && acc.pos - acc.neg <= s.pos - s.neg + Max(0.0, Abs(r) - k)
        && (Alarm(acc) ==> acc.pos - acc.neg > h)
    {
    }

    lemma {:induction false} SumsArePaidFor(rs: seq<real>)
      requires h >= 0.0 && k >= 0.0
      ensures SumsAfter(rs).pos >= 0.0 >= SumsAfter(rs).neg
      ensures AlarmCost(rs) + SumsAfter(rs).pos - SumsAfter(rs).neg <= OutlyingMass(rs)
    {
      if rs != [] {
        SumsArePaidFor(rs[..|rs| - 1]);
        PayStep(SumsAfter(rs[..|rs| - 1]), rs[|rs| - 1]);
      }
    }

    /** Every alarm is paid for by h of outlying mass: alarms * h is at most the mass. */
    lemma FiresArePaidFor(rs: seq<real>)
      requires h >= 0.0 && k >= 0.0
      ensures Times(FireCount(rs), h) <= OutlyingMass(rs)
    {
      SumsArePaidFor(rs);
      CostIsTimes(rs);
    }

    // ----- When it must fire -----

    lemma {:induction false} SumsGrowUntilFire(rs: seq<real>, ys: seq<real>, d: real)
      requires forall i :: 1 <= i <= |ys| ==> !Fires(rs + ys[..i])
      ensures (forall i :: 0 <= i < |ys| ==> ys[i] >= k + d) ==>
        SumsAfter(rs + ys).pos >= SumsAfter(rs).pos + Times(|ys|, d)
      ensures (forall i :: 0 <= i < |ys| ==> ys[i] <= -k - d) ==>
        SumsAfter(rs + ys).neg <= SumsAfter(rs).neg - Times(|ys|, d)
    {
      if ys == [] {
        assert rs + ys == rs;
      } else {
        var n := |ys|;
        var shorter := ys[..n - 1];
        forall i | 1 <= i <= n - 1 ensures !Fires(rs + shorter[..i]) {
          assert shorter[..i] == ys[..i];
        }
        SumsGrowUntilFire(rs, shorter, d);
        assert ys[..n] == ys && !Fires(rs + ys);
        assert (rs + ys)[..|rs + ys| - 1] == rs + shorter;
      }
    }

    static lemma FloorOfQuotient(h: real, d: real)
      requires d > 0.0 && h >= 0.0
      ensures (h / d).Floor >= 0 && Times((h / d).Floor + 1, d) > h
    {
      var q := h / d;
      assert q * d == h;
      assert q >= 0.0;
      var n := q.Floor + 1;
      TimesIsProduct(n, d);
      assert n as real - q > 0.0;
      assert (n as real - q) * d > 0.0;
      assert (n as real - q) * d == n as real * d - q * d;
    }

    /** Residuals that all exceed the slack by d on one side fire within floor(h/d) + 1 of
        them, whatever came before. */
    lemma SustainedShiftFires(rs: seq<real>, ys: seq<real>, d: real)
      requires h >= 0.0 && k >= 0.0 && d > 0.0
      requires |ys| > (h / d).Floor
      requires || (forall i :: 0 <= i < |ys| ==> ys[i] >= k + d)
               || (forall i :: 0 <= i < |ys| ==> ys[i] <= -k - d)
      ensures exists i :: 1 <= i <= (h / d).Floor + 1 && Fires(rs + ys[..i])
    {
      FloorOfQuotient(h, d);
      var n := (h / d).Floor + 1;
      var first := ys[..n];
      if forall i :: 1 <= i <= n ==> !Fires(rs + ys[..i]) {
        forall i | 1 <= i <= n ensures !Fires(rs + first[..i]) {
          assert ys[..i] == first[..i];
        }
        SumsGrowUntilFire(rs, first, d);
        SumsArePaidFor(rs);
        assert first[..n] == first;
        NoFireNoAlarm(rs + first);
      }
    }

    lemma NoFireNoAlarm(rs: seq<real>)
      requires rs != [] && !Fires(rs)
      ensures !Alarm(SumsAfter(rs))
    {
    }

    // ----- Scale and sign do not matter -----

    static function Scaled(x: real, a: real, b: real): real { a * x + b }

    /** The samples of `xs` in another unit and from another origin. */
    static function Rescale(xs: seq<real>, a: real, b: real): (ys: seq<real>)
      ensures |ys| == |xs| && forall i :: 0 <= i < |xs| ==> ys[i] == Scaled(xs[i], a, b)
    {
      seq(|xs|, i requires 0 <= i < |xs| => Scaled(xs[i], a, b))
    }

    static lemma RescalePrefix(xs: seq<real>, a: real, b: real, n: nat)
      requires n <= |xs|
      ensures Rescale(xs, a, b)[..n] == Rescale(xs[..n], a, b)
    {
    }

    static function Flip(rs: seq<real>, sign: bool): (fs: seq<real>)
      ensures |fs| == |rs| && forall i :: 0 <= i < |rs| ==> fs[i] == if sign then rs[i] else -rs[i]
    {
      seq(|rs|, i requires 0 <= i < |rs| => if sign then rs[i] else -rs[i])
    }

    static function ScaledMoments(m: Moments, a: real, b: real): Moments {
      Moments(Scaled(m.mean, a, b), a * a * m.variance)
    }

    lemma MeanScales(mean: real, x: real, a: real, b: real)
      ensures (1.0 - alpha) * Scaled(mean, a, b) + alpha * Scaled(x, a, b)
           == Scaled((1.0 - alpha) * mean + alpha * x, a, b)
    {
    }

    lemma VarianceScales(v: real, diff: real, a: real, v': real, diff': real)
      requires v' == a * a * v && diff' == a * diff
      ensures (1.0 - alpha) * v' + alpha * diff' * diff' == a * a * ((1.0 - alpha) * v + alpha * diff * diff)
    {
      assert alpha * diff' * diff' == a * a * (alpha * diff * diff);
      assert (1.0 - alpha) * v' == a * a * ((1.0 - alpha) * v);
    }

    lemma BlendScales(m: Moments, x: real, a: real, b: real)
      ensures Blend(ScaledMoments(m, a, b), Scaled(x, a, b)) == ScaledMoments(Blend(m, x), a, b)
    {
      MeanScales(m.mean, x, a, b);
      DifferenceScales(m.mean, x, a, b);
      VarianceScales(m.variance, x - m.mean, a,
                     ScaledMoments(m, a, b).variance, Scaled(x, a, b) - Scaled(m.mean, a, b));
    }

    static lemma DifferenceScales(mean: real, x: real, a: real, b: real)
      ensures Scaled(x, a, b) - Scaled(mean, a, b) == a * (x - mean)
    {
    }

    lemma {:induction false} MomentsScale(xs: seq<real>, a: real, b: real)
      requires xs != []
      ensures MomentsAfter(Rescale(xs, a, b)) == ScaledMoments(MomentsAfter(xs), a, b)
    {
      var n := |xs| - 1;
      if n > 0 {
        MomentsScale(xs[..n], a, b);
        RescalePrefix(xs, a, b, n);
        BlendScales(MomentsAfter(xs[..n]), xs[n], a, b);
      }
    }

    static lemma PositiveRootIsUnique(s: real, t: real)
      requires s > 0.0 && t > 0.0 && s * s == t * t
      ensures s == t
    {
      assert (s - t) * (s + t) == 0.0;
    }

    static lemma QuotientScales(num: real, den: real, a: real, num': real, den': real)
      requires a != 0.0 && den > 0.0 && num' == a * num && den' == Abs(a) * den
      ensures den' != 0.0 && num' / den' == if a > 0.0 then num / den else -(num / den)
    {
      var z := num / den;
      assert z * den == num;
      if a > 0.0 {
        assert z * den' == num';
      } else {
        assert (-z) * den' == num';
      }
    }

    /** The deviation of the rescaled samples. */
    static lemma RootScales(v: real, a: real, v': real, sqrt: Sqrt)
      requires IsSqrt(sqrt) && a != 0.0 && v > 0.0 && v' == a * a * v
      ensures v' > 0.0 && sqrt(v') == Abs(a) * sqrt(v)
    {
      assert a * a > 0.0;
      var s, t := sqrt(v'), Abs(a) * sqrt(v);
      assert t * t == (Abs(a) * Abs(a)) * (sqrt(v) * sqrt(v));
      PositiveRootIsUnique(s, t);
    }

    lemma ResidualScales(m: Moments, x: real, a: real, b: real, sqrt: Sqrt)
      requires IsSqrt(sqrt) && a != 0.0
      ensures Residual(ScaledMoments(m, a, b), Scaled(x, a, b), sqrt)
           == if a > 0.0 then Residual(m, x, sqrt) else -Residual(m, x, sqrt)
    {
      var v, diff := m.variance, x - m.mean;
      var v', diff' := ScaledMoments(m, a, b).variance, Scaled(x, a, b) - Scaled(m.mean, a, b);
      if v > 0.0 {
        RootScales(v, a, v', sqrt);
        QuotientScales(diff, sqrt(v), a, diff', sqrt(v'));
      } else {
        NonPositiveScales(v, a);
      }
    }

    static lemma NonPositiveScales(v: real, a: real)
      requires v <= 0.0
      ensures a * a * v <= 0.0
    {
      assert a * a >= 0.0;
    }

    static lemma FlipAppend(rs: seq<real>, r: real, sign: bool)
      ensures Flip(rs + [r], sign) == Flip(rs, sign) + [if sign then r else -r]
    {
    }

    lemma {:induction false} ResidualsScale(xs: seq<real>, a: real, b: real, sqrt: Sqrt)
      requires IsSqrt(sqrt) && a != 0.0
      ensures Residuals(Rescale(xs, a, b), sqrt) == Flip(Residuals(xs, sqrt), a > 0.0)
    {
      if Evaluated(|xs|) {
        var n := |xs| - 1;
        ResidualsScale(xs[..n], a, b, sqrt);
        LastResidualScales(xs, a, b, sqrt);
        RescalePrefix(xs, a, b, n);
        ResidualsAppend(xs, LastResidual(xs, sqrt), sqrt);
        ResidualsAppend(Rescale(xs, a, b), LastResidual(Rescale(xs, a, b), sqrt), sqrt);
        FlipAppend(Residuals(xs[..n], sqrt), LastResidual(xs, sqrt), a > 0.0);
      }
    }

    lemma ResidualsAppend(xs: seq<real>, last: real, sqrt: Sqrt)
      requires IsSqrt(sqrt) && Evaluated(|xs|) && last == LastResidual(xs, sqrt)
      ensures Residuals(xs, sqrt) == Residuals(xs[..|xs| - 1], sqrt) + [last]
    {
    }

    ghost function LastResidual(xs: seq<real>, sqrt: Sqrt): real
      requires IsSqrt(sqrt) && |xs| >= 2
    {
      Residual(MomentsAfter(xs[..|xs| - 1]), xs[|xs| - 1], sqrt)
    }

    lemma LastResidualScales(xs: seq<real>, a: real, b: real, sqrt: Sqrt)
      requires IsSqrt(sqrt) && a != 0.0 && |xs| >= 2
      ensures LastResidual(Rescale(xs, a, b), sqrt)
           == if a > 0.0 then LastResidual(xs, sqrt) else -LastResidual(xs, sqrt)
    {
      var n := |xs| - 1;
      MomentsScale(xs[..n], a, b);
      RescalePrefix(xs, a, b, n);
      ResidualScales(MomentsAfter(xs[..n]), xs[n], a, b, sqrt);
    }

    lemma {:induction false} SumsFlip(rs: seq<real>)
      ensures SumsAfter(Flip(rs, false)) == Sums(-SumsAfter(rs).neg, -SumsAfter(rs).pos)
      ensures Fires(Flip(rs, false)) <==> Fires(rs)
    {
      if rs != [] {
        SumsFlip(rs[..|rs| - 1]);
        assert Flip(rs, false)[..|rs| - 1] == Flip(rs[..|rs| - 1], false);
      }
    }

    /** Whether a stream fires at its last sample: past the warm-up, on its residuals. */
    ghost predicate FiresAt(xs: seq<real>, sqrt: Sqrt)
      requires IsSqrt(sqrt)
    {
      Evaluated(|xs|) && Fires(Residuals(xs, sqrt))
    }

    /** Changing the unit (even its sign) and the origin of a stream changes no decision. */
    lemma DecisionsIgnoreScale(xs: seq<real>, a: real, b: real, sqrt: Sqrt)
      requires IsSqrt(sqrt) && a != 0.0
      ensures FiresAt(Rescale(xs, a, b), sqrt) <==> FiresAt(xs, sqrt)
    {
      var rs := Residuals(xs, sqrt);
      ResidualsScale(xs, a, b, sqrt);
      if a > 0.0 {
        assert Flip(rs, true) == rs;
      } else {
        SumsFlip(rs);
      }
    }

    // ----- The running estimate is a weighted average -----

    static function Power(q: real, j: nat): real {
      if j == 0 then 1.0 else q * Power(q, j - 1)
    }

    static function Product(x: real, y: real): real { x * y }

    static function Square(x: real): real { Product(x, x) }

    /** The sum of ws[i] * xs[i]. */
    static function Dot(ws: seq<real>, xs: seq<real>): real
      requires |ws| == |xs|
    {
      if xs == [] then 0.0 else Dot(ws[..|ws| - 1], xs[..|xs| - 1]) + Product(ws[|ws| - 1], xs[|xs| - 1])
    }

    /** With q = 1 - alpha: q^(n-1) for the seed, and alpha * q^(n-1-i) for sample number i. */
    function Weight(i: nat, n: nat): real
      requires i < n
    {
      if i == 0 then Power(1.0 - alpha, n - 1) else Product(alpha, Power(1.0 - alpha, n - 1 - i))
    }

    function Weights(n: nat): (ws: seq<real>)
      ensures |ws| == n && forall i :: 0 <= i < n ==> ws[i] == Weight(i, n)
    {
      seq(n, i requires 0 <= i < n => Weight(i, n))
    }

    /** The squared distances of the samples from the mean before them, 0 for the seed. */
    function SquaredSurprises(xs: seq<real>): (ds: seq<real>)
      ensures |ds| == |xs|
    {
      seq(|xs|, i requires 0 <= i < |xs| => if i == 0 then 0.0 else Square(xs[i] - MomentsAfter(xs[..i]).mean))
    }

    static ghost predicate IsScaled(vs: seq<real>, q: real, ws: seq<real>) {
      |vs| == |ws| && forall i :: 0 <= i < |ws| ==> vs[i] == Product(q, ws[i])
    }

    static lemma {:induction false} ScaledDot(vs: seq<real>, q: real, ws: seq<real>, xs: seq<real>)
      requires IsScaled(vs, q, ws) && |ws| == |xs|
      ensures Dot(vs, xs) == Product(q, Dot(ws, xs))
    {
      if xs != [] {
        var m := |xs| - 1;
        ScaledDot(vs[..m], q, ws[..m], xs[..m]);
        ScaledTerm(q, ws[m], xs[m], Dot(ws[..m], xs[..m]));
      }
    }

    static lemma ScaledTerm(q: real, w: real, x: real, rest: real)
      ensures Product(q, rest) + Product(Product(q, w), x) == Product(q, rest + Product(w, x))
    {
    }

    lemma WeightsDecay(n: nat)
      requires n >= 1
      ensures IsScaled(Weights(n + 1)[..n], 1.0 - alpha, Weights(n)) && Weights(n + 1)[n] == alpha
    {
      forall i | 0 <= i < n ensures Weights(n + 1)[i] == Product(1.0 - alpha, Weights(n)[i]) {
        WeightDecays(i, n);
      }
      assert Weight(n, n + 1) == Product(alpha, Power(1.0 - alpha, 0));
    }

    lemma WeightDecays(i: nat, n: nat)
      requires i < n
      ensures Weight(i, n + 1) == Product(1.0 - alpha, Weight(i, n))
    {
      assert Power(1.0 - alpha, n - i) == (1.0 - alpha) * Power(1.0 - alpha, n - 1 - i);
      SlidFactor(1.0 - alpha, alpha, Power(1.0 - alpha, n - 1 - i));
    }

    static lemma SlidFactor(q: real, a: real, p: real)
      ensures Product(a, q * p) == Product(q, Product(a, p))
    {
    }

    /** One more term, the others weighing (1 - alpha) of what they did. */
    lemma OneMoreTerm(n: nat, xs: seq<real>, x: real)
      requires n >= 1 && |xs| == n
      ensures Dot(Weights(n + 1), xs + [x]) == Product(1.0 - alpha, Dot(Weights(n), xs)) + Product(alpha, x)
    {
      WeightsDecay(n);
      ScaledDot(Weights(n + 1)[..n], 1.0 - alpha, Weights(n), xs);
      assert (xs + [x])[..n] == xs;
    }

    lemma BlendInProducts(m: Moments, x: real)
      ensures Blend(m, x).mean == Product(1.0 - alpha, m.mean) + Product(alpha, x)
      ensures Blend(m, x).variance == Product(1.0 - alpha, m.variance) + Product(alpha, Square(x - m.mean))
    {
    }

    lemma BlendIsAverage(m: Moments, xs: seq<real>, ds: seq<real>, x: real)
      requires |xs| == |ds| > 0 && m == Moments(Dot(Weights(|xs|), xs), Dot(Weights(|xs|), ds))
      ensures var n := |xs| + 1;
        Blend(m, x) == Moments(Dot(Weights(n), xs + [x]), Dot(Weights(n), ds + [Square(x - m.mean)]))
    {
      BlendInProducts(m, x);
      OneMoreTerm(|xs|, xs, x);
      OneMoreTerm(|xs|, ds, Square(x - m.mean));
    }

    /** The mean of any stream is the weighted average of its samples, and the variance that
        of the squared distances from the means before them. */
    lemma {:induction false} MomentsAreAverages(xs: seq<real>)
      requires xs != []
      ensures MomentsAfter(xs) == Moments(Dot(Weights(|xs|), xs), Dot(Weights(|xs|), SquaredSurprises(xs)))
    {
      var n, x := |xs| - 1, xs[|xs| - 1];
      if n > 0 {
        var before, m := xs[..n], MomentsAfter(xs[..n]);
        MomentsAreAverages(before);
        assert before + [x] == xs;
        SurprisesGrow(xs);
        BlendIsAverage(m, before, SquaredSurprises(before), x);
      } else {
        OneTerm(x);
        assert xs == [x] && SquaredSurprises(xs) == [0.0];
      }
    }

    static lemma OneProduct(ws: seq<real>, xs: seq<real>)
      requires |ws| == |xs| == 1
      ensures Dot(ws, xs) == ws[0] * xs[0]
    {
    }

    lemma OneTerm(x: real)
      ensures Dot(Weights(1), [x]) == x && Dot(Weights(1), [0.0]) == 0.0
    {
      assert Weight(0, 1) == 1.0;
      OneProduct(Weights(1), [x]);
      OneProduct(Weights(1), [0.0]);
    }

    lemma SurprisesGrow(xs: seq<real>)
      requires |xs| >= 2
      ensures var n := |xs| - 1;
        SquaredSurprises(xs) == SquaredSurprises(xs[..n]) + [Square(xs[n] - MomentsAfter(xs[..n]).mean)]
    {
      var n := |xs| - 1;
      forall i | 0 <= i < n ensures xs[..n][..i] == xs[..i] {
      }
    }

    static function Ones(n: nat): seq<real> { seq(n, _ => 1.0) }

    /** The weights add up to 1. */
    lemma {:induction false} WeightsAreAverage(n: nat)
      requires n >= 1
      ensures Dot(Weights(n), Ones(n)) == 1.0
    {
      if n == 1 {
        OneTerm(1.0);
        assert Ones(1) == [1.0];
      } else {
        WeightsAreAverage(n - 1);
        OneMoreTerm(n - 1, Ones(n - 1), 1.0);
        assert Ones(n - 1) + [1.0] == Ones(n);
      }
    }

    // ----- A jump after a constant stretch -----

    /** `n` samples at `c`, then `j` samples at `c + size`. */
    static function Jump(n: nat, c: real, size: real, j: nat): (xs: seq<real>)
      ensures |xs| == n + j
    {
      seq(n + j, i => if i < n then c else c + size)
    }

    static function JumpSpread(e: real, p: real, p1: real): real { e * p * (1.0 - p1) }

    /** The running estimate j samples after a jump from `c` to `c + size`. */
    function JumpEstimate(c: real, size: real, j: nat): Moments { EstimateAfterJump(1.0 - alpha, c, size, j) }

    static function EstimateAfterJump(q: real, c: real, size: real, j: nat): Moments {
      Moments(c + size - Power(q, j) * size,
              if j == 0 then 0.0 else JumpSpread(Square(size), Power(q, j - 1), Power(q, j)))
    }

    lemma BlendConstant(c: real)
      ensures Blend(Moments(c, 0.0), c) == Moments(c, 0.0)
    {
    }

    lemma BlendJump(c: real, size: real, j: nat)
      ensures Blend(JumpEstimate(c, size, j), c + size) == JumpEstimate(c, size, j + 1)
    {
      var x, m, p1 := c + size, JumpEstimate(c, size, j), Power(1.0 - alpha, j);
      JumpMean(x, size, p1);
      if j == 0 {
        FirstVariance(size, x - m.mean);
      } else {
        JumpVariance(Square(size), Power(1.0 - alpha, j - 1), p1, size, x - m.mean);
      }
    }

    lemma JumpMean(x: real, size: real, p1: real)
      ensures (1.0 - alpha) * (x - p1 * size) + alpha * x == x - ((1.0 - alpha) * p1) * size
    {
    }

    lemma FirstVariance(size: real, diff: real)
      requires diff == 1.0 * size
      ensures (1.0 - alpha) * 0.0 + alpha * diff * diff == JumpSpread(Square(size), 1.0, (1.0 - alpha) * 1.0)
    {
    }

    lemma JumpVariance(e: real, p: real, p1: real, size: real, diff: real)
      requires p1 == (1.0 - alpha) * p && e == Square(size) && diff == p1 * size
      ensures (1.0 - alpha) * JumpSpread(e, p, p1) + alpha * diff * diff
           == JumpSpread(e, p1, (1.0 - alpha) * p1)
    {
      var q := 1.0 - alpha;
      assert q * (e * p * (1.0 - p1)) == e * p1 * (1.0 - p1);
      assert alpha * diff * diff == e * p1 * (alpha * p1);
      assert e * p1 * (1.0 - p1) + e * p1 * (alpha * p1) == e * p1 * (1.0 - p1 + alpha * p1);
      assert 1.0 - p1 + alpha * p1 == 1.0 - q * p1;
    }

    /** j samples after the jump the mean still lags by q^j of the jump, and the variance is
        size^2 * q^(j-1) * (1 - q^j), with q = 1 - alpha. */
    lemma {:induction false} JumpMoments(n: nat, c: real, size: real, j: nat)
      requires n >= 1
      ensures MomentsAfter(Jump(n, c, size, j)) == JumpEstimate(c, size, j)
      decreases n + j
    {
      var xs := Jump(n, c, size, j);
      if j > 0 {
        assert xs[..n + j - 1] == Jump(n, c, size, j - 1);
        JumpMoments(n, c, size, j - 1);
        BlendJump(c, size, j - 1);
      } else if n > 1 {
        assert xs[..n - 1] == Jump(n - 1, c, size, 0);
        JumpMoments(n - 1, c, size, 0);
        BlendConstant(c);
      }
    }

    static lemma {:induction false} PowerBounds(q: real, j: nat)
      requires 0.0 < q < 1.0
      ensures 0.0 < Power(q, j) <= 1.0
      ensures j >= 1 ==> Power(q, j) < 1.0
    {
      if j > 0 {
        PowerBounds(q, j - 1);
        var p := Power(q, j - 1);
        assert 0.0 < q * p < 1.0 by {
          assert q * p <= q * 1.0;
        }
      }
    }

    static lemma SquaredResidual(size: real, p: real, q: real, p1: real, diff: real, v: real, s: real)
      requires size != 0.0 && p > 0.0 && 0.0 < q && p1 == q * p < 1.0 && diff == p1 * size
      requires v == JumpSpread(Square(size), p, p1) && s > 0.0 && s * s == v
      ensures var r := diff / s; r * r == q * p1 / (1.0 - p1) && (r > 0.0 <==> size > 0.0)
    {
      var r, t := diff / s, q * p1 / (1.0 - p1);
      var e := size * size;
      assert r * s == diff;
      assert (r * r) * v == (p1 * size) * (p1 * size) by {
        assert (r * r) * (s * s) == (r * s) * (r * s);
      }
      assert t * (1.0 - p1) == q * p1;
      assert t * v == e * p * (t * (1.0 - p1));
      assert e * p * (q * p1) == (p1 * size) * (p1 * size);
      assert (r * r - t) * v == 0.0;
      assert v > 0.0;
      assert p1 > 0.0;
      if size > 0.0 { assert p1 * size > 0.0; } else { assert p1 * size < 0.0; }
    }

    /** A residual `r` that only tells when a jump happened, and which way it went. */
    ghost predicate TellsOnlyTime(r: real, j: nat, up: bool) { TellsTime(1.0 - alpha, r, j, up) }

    static ghost predicate TellsTime(q: real, r: real, j: nat, up: bool) {
      && Power(q, j) < 1.0
      && r * r == Power(q, j + 1) / (1.0 - Power(q, j))
      && (r > 0.0 <==> up)
    }

    lemma EstimateResidual(c: real, size: real, j: nat, sqrt: Sqrt)
      requires IsSqrt(sqrt) && 0.0 < alpha < 1.0 && j >= 1 && size != 0.0
      ensures TellsOnlyTime(Residual(JumpEstimate(c, size, j), c + size, sqrt), j, size > 0.0)
    {
      ResidualTellsTime(1.0 - alpha, c, size, j, sqrt);
    }

    lemma ResidualTellsTime(q: real, c: real, size: real, j: nat, sqrt: Sqrt)
      requires IsSqrt(sqrt) && 0.0 < q < 1.0 && j >= 1 && size != 0.0
      ensures TellsTime(q, Residual(EstimateAfterJump(q, c, size, j), c + size, sqrt), j, size > 0.0)
    {
      PowerBounds(q, j);
      PowerBounds(q, j - 1);
      LaggingResidual(EstimateAfterJump(q, c, size, j), c + size, size, Power(q, j - 1), q, Power(q, j), sqrt);
    }

    lemma LaggingResidual(m: Moments, x: real, size: real, p: real, q: real, p1: real, sqrt: Sqrt)
      requires IsSqrt(sqrt) && size != 0.0 && p > 0.0 && 0.0 < q && p1 == q * p && p1 < 1.0
      requires m == Moments(x - p1 * size, JumpSpread(Square(size), p, p1))
      ensures var r := Residual(m, x, sqrt); r * r == q * p1 / (1.0 - p1) && (r > 0.0 <==> size > 0.0)
    {
      SquarePositive(size);
      SpreadPositive(Square(size), p, p1);
      SquaredResidual(size, p, q, p1, x - m.mean, m.variance, sqrt(m.variance));
    }

    /** The residual of the sample that comes j samples after the jump: its square is
        q^(j+1) / (1 - q^j), its sign is the jump's.  The jump's size is not in it. */
    lemma JumpResidual(n: nat, c: real, size: real, j: nat, sqrt: Sqrt)
      requires IsSqrt(sqrt) && 0.0 < alpha < 1.0 && n >= 1 && j >= 1 && size != 0.0
      ensures TellsOnlyTime(Residual(MomentsAfter(Jump(n, c, size, j)), c + size, sqrt), j, size > 0.0)
    {
      JumpMoments(n, c, size, j);
      EstimateResidual(c, size, j, sqrt);
    }

    static lemma SpreadPositive(e: real, p: real, p1: real)
      requires e > 0.0 && p > 0.0 && p1 < 1.0
      ensures JumpSpread(e, p, p1) > 0.0
    {
      ProductPositive(e, p, 1.0 - p1);
    }

    static lemma ProductPositive(a: real, b: real, c: real)
      requires a > 0.0 && b > 0.0 && c > 0.0
      ensures a * b * c > 0.0
    {
      PositiveProduct(a, b);
      PositiveProduct(a * b, c);
    }

    static lemma SquarePositive(x: real)
      requires x != 0.0
      ensures Square(x) > 0.0
    {
      SameSignProduct(x, x);
    }

    static lemma SameSignProduct(x: real, y: real)
      requires (x > 0.0 && y > 0.0) || (x < 0.0 && y < 0.0)
      ensures Product(x, y) > 0.0
    {
    }

    static lemma PositiveProduct(a: real, b: real)
      requires a > 0.0 && b > 0.0
      ensures a * b > 0.0
    {
    }

    /** Whether a jump after a constant stretch is ever noticed does not depend on how
        large the jump is, or in which direction, or where it starts from. */
    lemma JumpSizeIsIrrelevant(n: nat, j: nat, c: real, size: real, c': real, size': real, sqrt: Sqrt)
      requires IsSqrt(sqrt) && size != 0.0 && size' != 0.0
      ensures FiresAt(Jump(n, c, size, j), sqrt) <==> FiresAt(Jump(n, c', size', j), sqrt)
    {
      var a := size' / size;
      var b := c' - a * c;
      assert a * size == size';
      assert a * (c + size) == a * c + a * size;
      var xs := Jump(n, c, size, j);
      forall i | 0 <= i < n + j ensures Scaled(xs[i], a, b) == Jump(n, c', size', j)[i] {
        if i < n { assert Scaled(c, a, b) == c'; } else { assert Scaled(c + size, a, b) == c' + size'; }
      }
      assert Rescale(xs, a, b) == Jump(n, c', size', j);
      assert a != 0.0;
      DecisionsIgnoreScale(xs, a, b, sqrt);
    }

    // ----- What decides whether a jump fires -----

    static function Zeros(n: nat): (zs: seq<real>)
      ensures |zs| == n
    {
      seq(n, _ => 0.0)
    }

    /** Samples of the constant stretch that are evaluated, and samples after the jump that
        are still warm-up. */
    function EvaluatedBefore(n: nat): nat {
      var seed := if warmup > 1 then warmup else 1;
      if n > seed then n - seed else 0
    }

    function WarmupAfter(n: nat): nat { if warmup > n then warmup - n else 0 }

    /** The residuals of samples number `from`, ..., `to` - 1 after a jump from `c` by `size`. */
    ghost function JumpResiduals(c: real, size: real, from: nat, to: nat, sqrt: Sqrt): seq<real>
      requires IsSqrt(sqrt)
    {
      if to <= from then []
      else JumpResiduals(c, size, from, to - 1, sqrt) + [Residual(JumpEstimate(c, size, to - 1), c + size, sqrt)]
    }

    lemma {:induction false} ResidualsOfJump(n: nat, c: real, size: real, j: nat, sqrt: Sqrt)
      requires IsSqrt(sqrt) && n >= 1
      ensures Residuals(Jump(n, c, size, j), sqrt)
           == Zeros(EvaluatedBefore(n)) + JumpResiduals(c, size, WarmupAfter(n), j, sqrt)
      decreases n + j
    {
      if j > 0 {
        ResidualsOfJump(n, c, size, j - 1, sqrt);
        OneMoreJumpResidual(n, c, size, j, sqrt);
        if j > WarmupAfter(n) {
          Append(Zeros(EvaluatedBefore(n)), JumpResiduals(c, size, WarmupAfter(n), j - 1, sqrt),
                 Residual(JumpEstimate(c, size, j - 1), c + size, sqrt));
        } else {
          assert Zeros(EvaluatedBefore(n)) == [];
        }
      } else {
        ResidualsOfStretch(n, c, size, sqrt);
      }
    }

    static lemma Append<T>(a: seq<T>, b: seq<T>, x: T)
      ensures a + (b + [x]) == (a + b) + [x]
    {
    }

    lemma {:induction false} ResidualsOfStretch(n: nat, c: real, size: real, sqrt: Sqrt)
      requires IsSqrt(sqrt) && n >= 1
      ensures Residuals(Jump(n, c, size, 0), sqrt) == Zeros(EvaluatedBefore(n))
    {
      if n > 1 {
        ResidualsOfStretch(n - 1, c, size, sqrt);
        OneMoreZero(n, c, size, sqrt);
        ZerosGrow(EvaluatedBefore(n - 1));
      }
    }

    static lemma ZerosGrow(n: nat)
      ensures Zeros(n) + [0.0] == Zeros(n + 1)
    {
    }

    lemma OneMoreJumpResidual(n: nat, c: real, size: real, j: nat, sqrt: Sqrt)
      requires IsSqrt(sqrt) && n >= 1 && j >= 1
      ensures Residuals(Jump(n, c, size, j), sqrt)
           == if j > WarmupAfter(n)
              then Residuals(Jump(n, c, size, j - 1), sqrt) + [Residual(JumpEstimate(c, size, j - 1), c + size, sqrt)]
              else []
    {
      assert Jump(n, c, size, j)[..n + j - 1] == Jump(n, c, size, j - 1);
      JumpMoments(n, c, size, j - 1);
    }

    lemma OneMoreZero(n: nat, c: real, size: real, sqrt: Sqrt)
      requires IsSqrt(sqrt) && n >= 2
      ensures Residuals(Jump(n, c, size, 0), sqrt)
           == if n > warmup then Residuals(Jump(n - 1, c, size, 0), sqrt) + [0.0] else []
    {
      assert Jump(n, c, size, 0)[..n - 1] == Jump(n - 1, c, size, 0);
      JumpMoments(n - 1, c, size, 0);
    }

    /** With a slack that is not negative, residuals of zero leave both sums at zero. */
    lemma {:induction false} ZerosLeaveNothing(n: nat)
      requires k >= 0.0
      ensures SumsAfter(Zeros(n)) == Sums(0.0, 0.0)
    {
      if n > 0 {
        ZerosLeaveNothing(n - 1);
        assert Zeros(n)[..n - 1] == Zeros(n - 1);
      }
    }

    /** What left nothing behind might as well not have been. */
    lemma {:induction false} FreshStart(a: seq<real>, b: seq<real>)
      requires SumsAfter(a) == Sums(0.0, 0.0)
      ensures SumsAfter(a + b) == SumsAfter(b)
      ensures b != [] ==> (Fires(a + b) <==> Fires(b))
    {
      if b == [] {
        assert a + b == a;
      } else {
        var n := |b| - 1;
        FreshStart(a, b[..n]);
        assert (a + b)[..|a + b| - 1] == a + b[..n];
      }
    }

    /** After a constant stretch of any length a jump is noticed, or not, by the residuals
        that the jump itself causes. */
    lemma JumpFiresIff(n: nat, c: real, size: real, j: nat, sqrt: Sqrt)
      requires IsSqrt(sqrt) && k >= 0.0 && n >= 1 && j >= 1
      ensures FiresAt(Jump(n, c, size, j), sqrt) <==> Fires(JumpResiduals(c, size, WarmupAfter(n), j, sqrt))
    {
      ResidualsOfJump(n, c, size, j, sqrt);
      ZerosLeaveNothing(EvaluatedBefore(n));
      FreshStart(Zeros(EvaluatedBefore(n)), JumpResiduals(c, size, WarmupAfter(n), j, sqrt));
    }

    /** So nothing but alpha, k and h decides, and how much of the warm-up was left: on the
        right there is neither the stretch's length nor its level nor the size of the jump. */
    lemma JumpDecision(n: nat, c: real, size: real, j: nat, sqrt: Sqrt)
      requires IsSqrt(sqrt) && k >= 0.0 && n >= 1 && j >= 1 && size != 0.0
      ensures FiresAt(Jump(n, c, size, j), sqrt) <==> Fires(JumpResiduals(0.0, 1.0, WarmupAfter(n), j, sqrt))
    {
      JumpSizeIsIrrelevant(n, j, c, size, 0.0, 1.0, sqrt);
      JumpFiresIff(n, 0.0, 1.0, j, sqrt);
    }

    /** Those residuals in closed form: zero for the first sample, then the positive root of
        q^(i+1) / (1 - q^i). */
    lemma {:induction false} UnitResiduals(from: nat, to: nat, sqrt: Sqrt)
      requires IsSqrt(sqrt) && 0.0 < alpha < 1.0 && from <= to
      ensures var rs := JumpResiduals(0.0, 1.0, from, to, sqrt);
        |rs| == to - from && forall i :: 0 <= i < |rs| ==> IsUnitResidual(rs[i], from + i)
    {
      if from < to {
        UnitResiduals(from, to - 1, sqrt);
        UnitResidual(to - 1, sqrt);
      }
    }

    lemma UnitResidual(i: nat, sqrt: Sqrt)
      requires IsSqrt(sqrt) && 0.0 < alpha < 1.0
      ensures IsUnitResidual(Residual(JumpEstimate(0.0, 1.0, i), 0.0 + 1.0, sqrt), i)
    {
      if i > 0 {
        EstimateResidual(0.0, 1.0, i, sqrt);
      }
    }

    ghost predicate IsUnitResidual(r: real, i: nat) {
      if i == 0 then r == 0.0 else TellsOnlyTime(r, i, true)
    }

    // ----- The length of the constant stretch -----

    /** The constant stretch is over the warm-up. */
    predicate Settled(n: nat) { n >= 1 && n >= warmup }

    /** From then on whether a jump is noticed j samples later depends on j alone, for these
        alpha, k and h. */
    ghost predicate OnlyParametersDecide(sqrt: Sqrt)
      requires IsSqrt(sqrt)
    {
      forall n: nat, n': nat, c: real, c': real, size: real, size': real, j: nat ::
        Settled(n) && Settled(n') && size != 0.0 && size' != 0.0 && j >= 1 ==>
          (FiresAt(Jump(n, c, size, j), sqrt) <==> FiresAt(Jump(n', c', size', j), sqrt))
    }

    /** That is so unless the slack is negative and zeros add up to an alarm; a slack below
        -h makes every sample fire. */
    lemma OnlyParametersDecideIff(sqrt: Sqrt)
      requires IsSqrt(sqrt)
      ensures OnlyParametersDecide(sqrt) <==> k >= 0.0 || h + k < 0.0
    {
      if k >= 0.0 {
        forall n: nat, c: real, size: real, j: nat | Settled(n) && size != 0.0 && j >= 1
          ensures FiresAt(Jump(n, c, size, j), sqrt) <==> Fires(JumpResiduals(0.0, 1.0, 0, j, sqrt))
        {
          JumpDecision(n, c, size, j, sqrt);
        }
      } else if h + k < 0.0 {
        forall n: nat, c: real, size: real, j: nat | Settled(n) && j >= 1
          ensures FiresAt(Jump(n, c, size, j), sqrt)
        {
          ResidualsOfJump(n, c, size, j, sqrt);
          AlwaysFires(Residuals(Jump(n, c, size, j), sqrt));
        }
      } else {
        StretchDecides(sqrt);
      }
    }

    lemma {:induction false} AlwaysFires(rs: seq<real>)
      requires k < 0.0 && h + k < 0.0
      ensures SumsAfter(rs) == Sums(0.0, 0.0) && (rs != [] ==> Fires(rs))
    {
      if rs != [] {
        AlwaysFires(rs[..|rs| - 1]);
      }
    }

    /** A stretch whose only evaluated sample is the jump does not fire, a longer one does. */
    lemma StretchDecides(sqrt: Sqrt)
      requires IsSqrt(sqrt) && k < 0.0 && h + k >= 0.0
      ensures !OnlyParametersDecide(sqrt)
    {
      var long, short := TwoStretches(sqrt);
      Disagree(long, short, sqrt);
    }

    lemma TwoStretches(sqrt: Sqrt) returns (long: nat, short: nat)
      requires IsSqrt(sqrt) && k < 0.0 && h + k >= 0.0
      ensures Settled(long) && FiresAt(Jump(long, 0.0, 1.0, 1), sqrt)
      ensures Settled(short) && !FiresAt(Jump(short, 0.0, 1.0, 1), sqrt)
    {
      short := if warmup > 1 then warmup else 1;
      var z := ZerosFire();
      long := short + z - 1;
      OneZeroIsSilent();
      FirstAfterJump(short, 1, sqrt);
      FirstAfterJump(long, z, sqrt);
    }

    lemma OneZeroIsSilent()
      requires k < 0.0 && h + k >= 0.0
      ensures !Fires(Zeros(1))
    {
      assert Zeros(1)[..0] == [];
    }

    lemma Disagree(n: nat, n': nat, sqrt: Sqrt)
      requires IsSqrt(sqrt) && Settled(n) && Settled(n')
      requires FiresAt(Jump(n, 0.0, 1.0, 1), sqrt) && !FiresAt(Jump(n', 0.0, 1.0, 1), sqrt)
      ensures !OnlyParametersDecide(sqrt)
    {
    }

    lemma FirstAfterJump(n: nat, z: nat, sqrt: Sqrt)
      requires IsSqrt(sqrt) && Settled(n) && z == EvaluatedBefore(n) + 1
      ensures FiresAt(Jump(n, 0.0, 1.0, 1), sqrt) <==> Fires(Zeros(z))
    {
      ResidualsOfJump(n, 0.0, 1.0, 1, sqrt);
      assert JumpResiduals(0.0, 1.0, 0, 1, sqrt) == [0.0];
      assert Zeros(z - 1) + [0.0] == Zeros(z);
    }

    lemma ZerosFire() returns (z: nat)
      requires k < 0.0 && h + k >= 0.0
      ensures z >= 1 && Fires(Zeros(z))
    {
      var m := (h / -k).Floor + 1;
      FloorOfQuotient(h, -k);
      if forall n :: 1 <= n <= m ==> !Fires(Zeros(n)) {
        SilentZeros(m);
        NoFireNoAlarm(Zeros(m));
        assert false;
      }
      z :| 1 <= z <= m && Fires(Zeros(z));
    }

    lemma {:induction false} SilentZeros(n: nat)
      requires k < 0.0 && forall i :: 1 <= i <= n ==> !Fires(Zeros(i))
      ensures SumsAfter(Zeros(n)).pos == Times(n, -k)
    {
      if n > 0 {
        SilentZeros(n - 1);
        assert Zeros(n)[..n - 1] == Zeros(n - 1);
        assert !Fires(Zeros(n));
      }
    }
  }

  /** With k = -1, h = 2 and no warm-up a jump after three zeros fires at once, and the same
      jump after one zero does not. */
  lemma LongerStretchFires(sqrt: Sqrt)
    requires IsSqrt(sqrt)
    ensures var c := Config(0.5, -1.0, 2.0, 0);
      c.FiresAt(Config.Jump(3, 0.0, 1.0, 1), sqrt) && !c.FiresAt(Config.Jump(1, 0.0, 1.0, 1), sqrt)
  {
    var c := Config(0.5, -1.0, 2.0, 0);
    c.FirstAfterJump(3, 3, sqrt);
    c.FirstAfterJump(1, 1, sqrt);
    c.OneZeroIsSilent();
    ThreeZerosFire(c);
  }

  lemma ThreeZerosFire(c: Config)
    requires c.k == -1.0 && c.h == 2.0
    ensures c.Fires(Config.Zeros(3))
  {
    var one, two, three := Config.Zeros(1), Config.Zeros(2), Config.Zeros(3);
    assert one[..0] == [] && two[..1] == one && three[..2] == two;
    assert c.SumsAfter(one) == Sums(1.0, -1.0);
    assert c.SumsAfter(two) == Sums(2.0, -2.0);
  }

  class CusumDetector {
    const config: Config
    const sqrt: Sqrt
    var states: map<nat, State>
    ghost var Seen: map<nat, seq<real>>  // the samples of each stream so far

    /** The state a stream is in after the samples `xs`. */
    ghost predicate Tracks(st: State, xs: seq<real>)
      requires IsSqrt(sqrt)
    {
      && st.count == |xs| > 0
      && Moments(st.mean, st.variance) == config.MomentsAfter(xs)
      && Sums(st.sPos, st.sNeg) == config.SumsAfter(config.Residuals(xs, sqrt))
    }

    ghost predicate Valid()
      reads this
    {
      && IsSqrt(sqrt)
      && states.Keys == Seen.Keys
      && forall id :: id in states ==> Tracks(states[id], Seen[id])
    }

    constructor (alpha: real, k: real, h: real, warmup: nat := 1, sqrt: Sqrt)
      requires IsSqrt(sqrt)
      ensures Valid() && config == Config(alpha, k, h, warmup) && this.sqrt == sqrt && Seen == map[]
    {
      config := Config(alpha, k, h, warmup);
      this.sqrt := sqrt;
      states, Seen := map[], map[];
    }

    ghost function SeenOn(id: nat): seq<real>
      reads this
    {
      if id in Seen then Seen[id] else []
    }

    /** How the specification extends by one sample. */
    lemma OneMoreSample(before: seq<real>, x: real)
      requires IsSqrt(sqrt) && before != []
      ensures var xs := before + [x];
        && config.MomentsAfter(xs) == config.Blend(config.MomentsAfter(before), x)
        && config.Residuals(xs, sqrt) ==
             if config.Evaluated(|xs|)
             then config.Residuals(before, sqrt) + [config.Residual(config.MomentsAfter(before), x, sqrt)]
             else []
    {
      assert (before + [x])[..|before|] == before;
    }

    lemma OneMoreResidual(rs: seq<real>, r: real)
      ensures var s := config.Accumulate(config.SumsAfter(rs), r);
        && (config.Fires(rs + [r]) <==> config.Alarm(s))
        && config.SumsAfter(rs + [r]) == if config.Alarm(s) then Sums(0.0, 0.0) else s
    {
      assert (rs + [r])[..|rs + [r]| - 1] == rs;
    }

    lemma Seeds(x: real)
      requires IsSqrt(sqrt)
      ensures Tracks(State(1, x, 0.0, 0.0, 0.0), [x]) && !config.FiresAt([x], sqrt)
    {
    }

    lemma WarmsUp(st: State, before: seq<real>, x: real)
      requires IsSqrt(sqrt) && Tracks(st, before) && !config.Evaluated(|before| + 1)
      ensures var m := config.Blend(Moments(st.mean, st.variance), x);
        Tracks(State(st.count + 1, m.mean, m.variance, st.sPos, st.sNeg), before + [x])
    {
      OneMoreSample(before, x);
    }

    lemma SumsUp(st: State, before: seq<real>, x: real, r: real)
      requires IsSqrt(sqrt) && Tracks(st, before) && config.Evaluated(|before| + 1)
      requires r == config.Residual(Moments(st.mean, st.variance), x, sqrt)
      ensures
        var m := config.Blend(Moments(st.mean, st.variance), x);
        var acc := config.Accumulate(Sums(st.sPos, st.sNeg), r);
        var s := if config.Alarm(acc) then Sums(0.0, 0.0) else acc;
        && Tracks(State(st.count + 1, m.mean, m.variance, s.pos, s.neg), before + [x])
        && (config.FiresAt(before + [x], sqrt) <==> config.Alarm(acc))
    {
      OneMoreSample(before, x);
      OneMoreResidual(config.Residuals(before, sqrt), r);
    }

    method Standardise(estimate: Moments, value: real) returns (residual: real)
      requires IsSqrt(sqrt)
      ensures residual == config.Residual(estimate, value, sqrt)
    {
      residual := if estimate.variance > 0.0 then (value - estimate.mean) / sqrt(estimate.variance) else 0.0;
    }

    /** One sample of a stream whose samples so far were `before`. */
    method Advance(st: State, value: real, ghost before: seq<real>) returns (next: State, fired: bool)
      requires IsSqrt(sqrt) && if st.count == 0 then before == [] else Tracks(st, before)
      ensures Tracks(next, before + [value])
      ensures fired <==> config.FiresAt(before + [value], sqrt)
    {
      if st.count == 0 {
        Seeds(value);
        assert before + [value] == [value];
        return State(1, value, 0.0, 0.0, 0.0), false;
      }
      var estimate := Moments(st.mean, st.variance);
      var blended := config.Blend(estimate, value);
      if st.count < config.warmup {
        WarmsUp(st, before, value);
        return State(st.count + 1, blended.mean, blended.variance, st.sPos, st.sNeg), false;
      }
      var residual := Standardise(estimate, value);
      SumsUp(st, before, value, residual);
      var sPos := Max(0.0, st.sPos + residual - config.k);
      var sNeg := Min(0.0, st.sNeg + residual + config.k);
      fired := sPos > config.h || sNeg < -config.h;
      if fired {
        sPos, sNeg := 0.0, 0.0;
      }
      next := State(st.count + 1, blended.mean, blended.variance, sPos, sNeg);
    }

    /** Fires exactly as the samples of this stream alone dictate. */
    method UpdateAndCheck(id: nat, value: real) returns (fired: bool)
      requires Valid()
      modifies this
      ensures Valid()
      ensures Seen == old(Seen)[id := old(SeenOn(id)) + [value]]
      ensures fired <==> config.FiresAt(Seen[id], sqrt)
    {
      ghost var before := SeenOn(id);
      var st := if id in states then states[id] else State(0, 0.0, 0.0, 0.0, 0.0);
      st, fired := Advance(st, value, before);
      states, Seen := states[id := st], Seen[id := before + [value]];
    }
  }
}
