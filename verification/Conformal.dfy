/** The per-stream conformal threshold: a ring of recent scores, and an order statistic of
    it.  Doubles are reals. */
module Conformal {
  import opened WindowArith

  // ----- Order statistics -----

  /** `x` put into the ordered `s`. */
  function Insert(s: seq<real>, x: real): seq<real> {
    if s == [] || s[|s| - 1] <= x then s + [x]
    else Insert(s[..|s| - 1], x) + [s[|s| - 1]]
  }

  /** The scores in ascending order: what std::sort leaves behind. */
  function Sorted(xs: seq<real>): (s: seq<real>)
    ensures |s| == |xs|
  {
    if xs == [] then []
    else
      InsertLength(Sorted(xs[..|xs| - 1]), xs[|xs| - 1]);
      Insert(Sorted(xs[..|xs| - 1]), xs[|xs| - 1])
  }

  lemma {:induction false} InsertLength(s: seq<real>, x: real)
    ensures |Insert(s, x)| == |s| + 1
  {
    if s != [] && s[|s| - 1] > x { InsertLength(s[..|s| - 1], x); }
  }

  ghost predicate Ordered(s: seq<real>) {
    forall i, j :: 0 <= i < j < |s| ==> s[i] <= s[j]
  }

  lemma {:induction false} InsertKeepsOrder(s: seq<real>, x: real)
    requires Ordered(s)
    ensures Ordered(Insert(s, x))
    ensures forall v :: v in Insert(s, x) <==> v in s || v == x
  {
    if s != [] {
      var n := |s| - 1;
      assert s == s[..n] + [s[n]];
      if s[n] > x {
        InsertKeepsOrder(s[..n], x);
        var t := Insert(s[..n], x);
        forall i | 0 <= i < |t| ensures t[i] <= s[n] {
          assert t[i] in t;
        }
      }
    }
  }

  lemma {:induction false} SortedIsOrdered(xs: seq<real>)
    ensures Ordered(Sorted(xs))
    ensures forall v :: v in Sorted(xs) <==> v in xs
  {
    if xs != [] {
      var n := |xs| - 1;
      SortedIsOrdered(xs[..n]);
      InsertKeepsOrder(Sorted(xs[..n]), xs[n]);
      assert xs == xs[..n] + [xs[n]];
    }
  }

  /** How many scores are at or below `v`. */
  function AtMost(xs: seq<real>, v: real): (n: nat)
    ensures n <= |xs|
  {
    if xs == [] then 0 else AtMost(xs[..|xs| - 1], v) + if xs[|xs| - 1] <= v then 1 else 0
  }

  /** How many scores are strictly below `v`. */
  function Below(xs: seq<real>, v: real): (n: nat)
    ensures n <= |xs|
  {
    if xs == [] then 0 else Below(xs[..|xs| - 1], v) + if xs[|xs| - 1] < v then 1 else 0
  }

  lemma AtMostAppend(s: seq<real>, x: real, v: real)
    ensures AtMost(s + [x], v) == AtMost(s, v) + if x <= v then 1 else 0
    ensures Below(s + [x], v) == Below(s, v) + if x < v then 1 else 0
  {
    assert (s + [x])[..|s + [x]| - 1] == s;
  }

  lemma {:induction false} InsertCounts(s: seq<real>, x: real, v: real)
    ensures AtMost(Insert(s, x), v) == AtMost(s, v) + if x <= v then 1 else 0
    ensures Below(Insert(s, x), v) == Below(s, v) + if x < v then 1 else 0
  {
    if s == [] || s[|s| - 1] <= x {
      AtMostAppend(s, x, v);
    } else {
      var n := |s| - 1;
      InsertCounts(s[..n], x, v);
      AtMostAppend(Insert(s[..n], x), s[n], v);
    }
  }

  /** Sorting changes no count. */
  lemma {:induction false} SortedCounts(xs: seq<real>, v: real)
    ensures AtMost(Sorted(xs), v) == AtMost(xs, v) && Below(Sorted(xs), v) == Below(xs, v)
  {
    if xs != [] {
      var n := |xs| - 1;
      SortedCounts(xs[..n], v);
      InsertCounts(Sorted(xs[..n]), xs[n], v);
    }
  }

  /** In an ordered sequence the score at index i has at least i + 1 scores at or below it,
      at most i strictly below it, and anything smaller has at most i at or below it. */
  lemma {:induction false} RankInOrdered(s: seq<real>, i: nat, v: real)
    requires Ordered(s) && i < |s|
    ensures v >= s[i] ==> AtMost(s, v) >= i + 1
    ensures v < s[i] ==> AtMost(s, v) <= i
    ensures v <= s[i] ==> Below(s, v) <= i
  {
    var n := |s| - 1;
    if i < n {
      RankInOrdered(s[..n], i, v);
    } else if v >= s[i] {
      AllAtMost(s, v);
    }
  }

  lemma {:induction false} AllAtMost(s: seq<real>, v: real)
    requires forall i :: 0 <= i < |s| ==> s[i] <= v
    ensures AtMost(s, v) == |s|
  {
    if s != [] { AllAtMost(s[..|s| - 1], v); }
  }

  // ----- The threshold -----

  /** A threshold; +infinity while there are no scores. */
  datatype Bound = Infinite | Finite(value: real)

  predicate Exceeds(score: real, t: Bound) { t.Finite? && score > t.value }

  function Ceil(x: real): int { -((-x).Floor) }

  /** (1 - alpha) of `n` scores. */
  function Share(n: nat, alpha: real): real { (1.0 - alpha) * n as real }

  /** The order statistic used for `n` scores: ceil((1 - alpha) * n) - 1, clamped. */
  function Index(n: nat, alpha: real): (i: nat)
    requires n > 0
    ensures i < n
  {
    var raw := Ceil(Share(n, alpha)) - 1;
    if raw < 0 then 0 else if raw > n - 1 then n - 1 else raw
  }

  function Quantile(xs: seq<real>, alpha: real): Bound {
    if xs == [] then Infinite else Finite(Sorted(xs)[Index(|xs|, alpha)])
  }

  /** The rank the threshold is chosen to have among `n` scores. */
  function Rank(n: nat, alpha: real): int {
    var c := Ceil(Share(n, alpha));
    if c < 1 then 1 else c
  }

  /** floor(alpha * n): how many of `n` scores may lie above the threshold. */
  function Allowed(n: nat, alpha: real): int { (alpha * n as real).Floor }

  lemma RankAndAllowed(n: nat, alpha: real)
    requires n > 0 && alpha >= 0.0
    ensures Index(n, alpha) + 1 == Rank(n, alpha) <= n
    ensures n - Rank(n, alpha) <= Allowed(n, alpha)
  {
    var t := alpha * n as real;
    assert t >= 0.0;
    assert Share(n, alpha) == n as real - t;
    assert (-(n as real - t)).Floor == t.Floor - n;
  }

  /** Having the rank of `n` scores is having at least (1 - alpha) * n, and 1. */
  lemma RankInNumbers(n: nat, alpha: real, count: nat)
    ensures count >= Rank(n, alpha) <==> count as real >= (1.0 - alpha) * n as real && count >= 1
  {
  }

  lemma AllowedInNumbers(n: nat, alpha: real, count: nat)
    ensures count <= Allowed(n, alpha) <==> count as real <= alpha * n as real
  {
  }

  lemma {:induction false} InTheCount(xs: seq<real>, u: real)
    requires u in xs
    ensures AtMost(xs, u) >= 1
  {
    var n := |xs| - 1;
    if xs[n] > u {
      assert u in xs[..n];
      InTheCount(xs[..n], u);
    }
  }

  /** The threshold is the least score with at least (1 - alpha) * n scores at or below it,
      and it leaves at most alpha * n scores above it. */
  lemma QuantileMeaning(xs: seq<real>, alpha: real)
    requires xs != [] && alpha >= 0.0
    ensures
      var v, n := Quantile(xs, alpha).value, |xs| as real;
      && v in xs
      && AtMost(xs, v) as real >= (1.0 - alpha) * n
      && (forall u :: u in xs && u < v ==> AtMost(xs, u) as real < (1.0 - alpha) * n)
      && n - AtMost(xs, v) as real <= alpha * n
  {
    var v := Quantile(xs, alpha).value;
    QuantileHasRank(xs, alpha);
    RankInNumbers(|xs|, alpha, AtMost(xs, v));
    AllowedInNumbers(|xs|, alpha, |xs| - AtMost(xs, v));
    forall u | u in xs && u < v ensures AtMost(xs, u) as real < (1.0 - alpha) * |xs| as real {
      InTheCount(xs, u);
      RankInNumbers(|xs|, alpha, AtMost(xs, u));
    }
  }

  /** With a negative alpha it is the largest score. */
  lemma NegativeAlpha(xs: seq<real>, alpha: real)
    requires xs != [] && alpha < 0.0
    ensures var v := Quantile(xs, alpha).value;
      v in xs && forall u :: u in xs ==> u <= v
  {
    var s := Sorted(xs);
    SortedIsOrdered(xs);
    LastIndex(|xs|, alpha);
    forall u | u in xs ensures u <= s[|s| - 1] {
      assert u in s;
    }
  }

  lemma LastIndex(n: nat, alpha: real)
    requires n > 0 && alpha < 0.0
    ensures Index(n, alpha) == n - 1
  {
    ShareAntitone(n, alpha, 0.0);
  }

  /** The same by rank. */
  lemma QuantileHasRank(xs: seq<real>, alpha: real)
    requires xs != [] && alpha >= 0.0
    ensures
      var v := Quantile(xs, alpha).value;
      && v in xs
      && AtMost(xs, v) >= Rank(|xs|, alpha)
      && (forall u :: u in xs && AtMost(xs, u) >= Rank(|xs|, alpha) ==> v <= u)
      && |xs| - AtMost(xs, v) <= Allowed(|xs|, alpha)
  {
    var s, i := Sorted(xs), Index(|xs|, alpha);
    SortedIsOrdered(xs);
    RankAndAllowed(|xs|, alpha);
    RankInOrdered(s, i, s[i]);
    SortedCounts(xs, s[i]);
    forall u | u in xs && AtMost(xs, u) >= Rank(|xs|, alpha) ensures s[i] <= u {
      RankInOrdered(s, i, u);
      SortedCounts(xs, u);
    }
  }

  /** A larger false-alarm budget never raises the threshold. */
  lemma QuantileAntitone(xs: seq<real>, alpha: real, alpha': real)
    requires xs != [] && alpha <= alpha'
    ensures Quantile(xs, alpha').value <= Quantile(xs, alpha).value
  {
    ShareAntitone(|xs|, alpha, alpha');
    CeilMonotone(Share(|xs|, alpha'), Share(|xs|, alpha));
    SortedIsOrdered(xs);
  }

  lemma CeilMonotone(x: real, y: real)
    requires x <= y
    ensures Ceil(x) <= Ceil(y)
  {
  }

  lemma ShareAntitone(n: nat, alpha: real, alpha': real)
    requires alpha <= alpha'
    ensures Share(n, alpha') <= Share(n, alpha)
  {
    var r := n as real;
    assert (1.0 - alpha) * r - (1.0 - alpha') * r == (alpha' - alpha) * r;
    assert (alpha' - alpha) * r >= 0.0;
  }

  // ----- The guarantee -----

  /** The scores other than the one at `i`. */
  function Without(xs: seq<real>, i: nat): (others: seq<real>)
    requires i < |xs|
    ensures |others| == |xs| - 1
  {
    xs[..i] + xs[i + 1..]
  }

  /** How many of the first `m` scores exceed the threshold of all the others. */
  function FlaggedCount(xs: seq<real>, alpha: real, m: nat): nat
    requires m <= |xs|
  {
    if m == 0 then 0
    else FlaggedCount(xs, alpha, m - 1)
         + if Exceeds(xs[m - 1], Quantile(Without(xs, m - 1), alpha)) then 1 else 0
  }

  /** How many of `ys` have at least `k` of `xs` strictly below them. */
  function HighCount(ys: seq<real>, xs: seq<real>, k: int): nat {
    if ys == [] then 0 else HighCount(ys[..|ys| - 1], xs, k) + if Below(xs, ys[|ys| - 1]) >= k then 1 else 0
  }

  lemma {:induction false} BelowConcat(xs: seq<real>, ys: seq<real>, v: real)
    ensures Below(xs + ys, v) == Below(xs, v) + Below(ys, v)
  {
    if ys == [] {
      assert xs + ys == xs;
    } else {
      var n := |ys| - 1;
      BelowConcat(xs, ys[..n], v);
      assert (xs + ys)[..|xs + ys| - 1] == xs + ys[..n];
    }
  }

  lemma {:induction false} AtMostIsBelow(xs: seq<real>, v: real, w: real)
    requires v < w
    ensures AtMost(xs, v) <= Below(xs, w)
  {
    if xs != [] { AtMostIsBelow(xs[..|xs| - 1], v, w); }
  }

  lemma SelfNotBelow(before: seq<real>, x: real, after: seq<real>)
    ensures Below(before + [x] + after, x) == Below(before + after, x)
  {
    BelowConcat(before + [x], after, x);
    AtMostAppend(before, x, x);
    BelowConcat(before, after, x);
  }

  lemma WithoutBelow(xs: seq<real>, i: nat)
    requires i < |xs|
    ensures Below(Without(xs, i), xs[i]) == Below(xs, xs[i])
  {
    SplitAt(xs, i);
    SelfNotBelow(xs[..i], xs[i], xs[i + 1..]);
  }

  lemma SplitAt<T>(xs: seq<T>, i: nat)
    requires i < |xs|
    ensures xs == xs[..i] + [xs[i]] + xs[i + 1..]
  {
  }

  /** A score above the threshold of the others has at least `Rank` of all below it. */
  lemma FlaggedIsHigh(xs: seq<real>, alpha: real, i: nat)
    requires i < |xs| && alpha >= 0.0 && Exceeds(xs[i], Quantile(Without(xs, i), alpha))
    ensures Below(xs, xs[i]) >= Rank(|xs| - 1, alpha)
  {
    WithoutBelow(xs, i);
    RankBelowFlagged(Without(xs, i), |xs| - 1, alpha, xs[i]);
  }

  lemma RankBelowFlagged(others: seq<real>, n: nat, alpha: real, x: real)
    requires |others| == n && alpha >= 0.0 && Exceeds(x, Quantile(others, alpha))
    ensures Below(others, x) >= Rank(n, alpha)
  {
    QuantileHasRank(others, alpha);
    AtMostIsBelow(others, Quantile(others, alpha).value, x);
  }

  lemma {:induction false} FlaggedAreHigh(xs: seq<real>, alpha: real, m: nat, k: int)
    requires m <= |xs| && alpha >= 0.0 && |xs| > 0 && k == Rank(|xs| - 1, alpha)
    ensures FlaggedCount(xs, alpha, m) <= HighCount(xs[..m], xs, k)
  {
    if m > 0 {
      FlaggedAreHigh(xs, alpha, m - 1, k);
      assert xs[..m][..m - 1] == xs[..m - 1];
      if Exceeds(xs[m - 1], Quantile(Without(xs, m - 1), alpha)) {
        FlaggedIsHigh(xs, alpha, m - 1);
      }
    }
  }

  lemma {:induction false} InsertHigh(s: seq<real>, x: real, xs: seq<real>, k: int)
    ensures HighCount(Insert(s, x), xs, k) == HighCount(s, xs, k) + if Below(xs, x) >= k then 1 else 0
  {
    if s == [] || s[|s| - 1] <= x {
      assert (s + [x])[..|s + [x]| - 1] == s;
    } else {
      var n := |s| - 1;
      InsertHigh(s[..n], x, xs, k);
      var t := Insert(s[..n], x);
      assert (t + [s[n]])[..|t + [s[n]]| - 1] == t;
    }
  }

  lemma {:induction false} SortedHigh(ys: seq<real>, xs: seq<real>, k: int)
    ensures HighCount(Sorted(ys), xs, k) == HighCount(ys, xs, k)
  {
    if ys != [] {
      var n := |ys| - 1;
      SortedHigh(ys[..n], xs, k);
      InsertHigh(Sorted(ys[..n]), ys[n], xs, k);
    }
  }

  /** The first k scores of the sorted order cannot be high. */
  lemma {:induction false} HighInOrdered(xs: seq<real>, m: nat, k: nat)
    requires m <= |xs|
    ensures HighCount(Sorted(xs)[..m], xs, k) <= if m <= k then 0 else m - k
  {
    if m > 0 {
      var s := Sorted(xs);
      HighInOrdered(xs, m - 1, k);
      assert s[..m][..m - 1] == s[..m - 1];
      SortedIsOrdered(xs);
      RankInOrdered(s, m - 1, s[m - 1]);
      SortedCounts(xs, s[m - 1]);
    }
  }

  lemma HighAtMost(xs: seq<real>, k: nat)
    requires k <= |xs|
    ensures HighCount(xs, xs, k) <= |xs| - k
  {
    SortedHigh(xs, xs, k);
    HighInOrdered(xs, |xs|, k);
    assert Sorted(xs)[..|xs|] == Sorted(xs);
  }

  lemma FlaggedAtMost(xs: seq<real>, alpha: real, k: nat)
    requires xs != [] && alpha >= 0.0 && k == Rank(|xs| - 1, alpha) && k <= |xs|
    ensures FlaggedCount(xs, alpha, |xs|) <= |xs| - k
  {
    FlaggedAreHigh(xs, alpha, |xs|, k);
    assert xs[..|xs|] == xs;
    HighAtMost(xs, k);
  }

  /** The threshold of no scores is infinite. */
  lemma LoneScorePasses(xs: seq<real>, alpha: real)
    requires |xs| == 1
    ensures FlaggedCount(xs, alpha, 1) == 0
  {
    assert Without(xs, 0) == [];
  }

  /** Hold each of n + 1 scores out in turn and test it against the threshold of the other
      n: at most floor(alpha * n) + 1 are flagged, whatever the scores. */
  lemma AtMostBudgetFlagged(xs: seq<real>, alpha: real)
    requires |xs| > 0 && 0.0 <= alpha <= 1.0
    ensures FlaggedCount(xs, alpha, |xs|) <= Allowed(|xs| - 1, alpha) + 1
    ensures FlaggedCount(xs, alpha, |xs|) as real <= alpha * (|xs| - 1) as real + 1.0
  {
    if |xs| == 1 {
      LoneScorePasses(xs, alpha);
    } else {
      RankAndAllowed(|xs| - 1, alpha);
      FlaggedAtMost(xs, alpha, Rank(|xs| - 1, alpha));
    }
  }

  // ----- The detector -----

  /** The last `w` of `xs`, or all of them if there are fewer. */
  function LastOf(xs: seq<real>, w: nat): seq<real> {
    if |xs| <= w then xs else xs[|xs| - w..]
  }

  /** It is the end of `xs`, and as long as it may be. */
  lemma LastOfMeaning(xs: seq<real>, w: nat)
    ensures |LastOf(xs, w)| <= w && |LastOf(xs, w)| <= |xs|
    ensures |LastOf(xs, w)| < w ==> LastOf(xs, w) == xs
    ensures xs == xs[..|xs| - |LastOf(xs, w)|] + LastOf(xs, w)
  {
  }

  /** A ring of scores: `count` of them, the oldest at `head`. */
  datatype State = State(buf: seq<real>, head: nat, count: nat) {
    ghost predicate Holds(capacity: nat, window: seq<real>) {
      && |buf| == capacity
      && count == |window| <= capacity
      && (capacity > 0 ==> head < capacity)
      && forall i :: 0 <= i < count ==> buf[(head + i) % capacity] == window[i]
    }
  }

  /** A score stored behind the others. */
  lemma AppendHolds(st: State, capacity: nat, window: seq<real>, score: real)
    requires st.Holds(capacity, window) && st.count < capacity
    ensures State(st.buf[(st.head + st.count) % capacity := score], st.head, st.count + 1)
            .Holds(capacity, window + [score])
  {
    LapIsInjective(st.head, capacity);
  }

  /** A score stored over the oldest one. */
  lemma OverwriteHolds(st: State, capacity: nat, window: seq<real>, score: real)
    requires st.Holds(capacity, window) && st.count == capacity > 0
    ensures State(st.buf[st.head := score], (st.head + 1) % capacity, st.count)
            .Holds(capacity, window[1..] + [score])
  {
    var st', window' := State(st.buf[st.head := score], (st.head + 1) % capacity, st.count), window[1..] + [score];
    SmallMod(st.head, capacity);
    LapIsInjective(st.head, capacity);
    forall i | 0 <= i < capacity ensures st'.buf[(st'.head + i) % capacity] == window'[i] {
      ModPlus(st.head + 1, i, capacity);
      if i == capacity - 1 {
        AddLap(st.head, capacity);
      } else {
        assert (st.head + (i + 1)) % capacity != st.head;
      }
    }
  }

  class ConformalThreshold {
    const capacity: nat
    const scratch: array<real>
    var states: map<nat, State>
    ghost var Seen: map<nat, seq<real>>  // all scores of each stream so far

    ghost predicate Valid()
      reads this
    {
      && scratch.Length == capacity
      && states.Keys == Seen.Keys
      && forall id :: id in states ==> states[id].Holds(capacity, LastOf(Seen[id], capacity))
    }

    ghost function SeenOn(id: nat): seq<real>
      reads this
    {
      if id in Seen then Seen[id] else []
    }

    /** The last `capacity` scores of a stream, oldest first. */
    ghost function Window(id: nat): seq<real>
      reads this
    {
      LastOf(SeenOn(id), capacity)
    }

    constructor (capacity: nat)
      ensures Valid() && fresh(scratch) && this.capacity == capacity && Seen == map[]
    {
      this.capacity := capacity;
      scratch := new real[capacity];
      states, Seen := map[], map[];
    }

    /** The ring always holds exactly the last `capacity` scores of its own stream. */
    method Update(id: nat, score: real)
      requires Valid()
      modifies this
      ensures Valid()
      ensures Seen == old(Seen)[id := old(SeenOn(id)) + [score]]
    {
      var st := if id in states then states[id] else State(seq(capacity, _ => 0.0), 0, 0);
      ghost var window, all := Window(id), SeenOn(id) + [score];
      Seen := Seen[id := all];
      if capacity == 0 {
        states := states[id := st];
        return;
      }
      if st.count < capacity {
        AppendHolds(st, capacity, window, score);
        assert LastOf(all, capacity) == window + [score];
        st := State(st.buf[(st.head + st.count) % capacity := score], st.head, st.count + 1);
      } else {
        OverwriteHolds(st, capacity, window, score);
        assert LastOf(all, capacity) == window[1..] + [score];
        st := State(st.buf[st.head := score], (st.head + 1) % capacity, st.count);
      }
      states := states[id := st];
    }

    /** Copies the window, oldest first, to the front of the scratch buffer and sorts it. */
    method SortWindow(st: State, ghost window: seq<real>)
      requires scratch.Length == capacity && st.Holds(capacity, window)
      modifies scratch
      ensures scratch[..st.count] == Sorted(window)
    {
      for i := 0 to st.count
        invariant scratch[..i] == window[..i]
      {
        scratch[i] := st.buf[(st.head + i) % capacity];
      }
      assert scratch[..st.count] == window;
      var sorted := Sorted(scratch[..st.count]);
      forall i | 0 <= i < st.count { scratch[i] := sorted[i]; }
      assert scratch[..st.count] == sorted;
    }

    method Threshold(id: nat, alpha: real) returns (t: Bound)
      requires Valid()
      modifies scratch
      ensures t == Quantile(Window(id), alpha)
    {
      if id !in states || states[id].count == 0 {
        return Infinite;
      }
      var n := states[id].count;
      SortWindow(states[id], Window(id));
      var idx := Ceil(Share(n, alpha)) - 1;
      if idx < 0 {
        idx := 0;
      } else if idx > n - 1 {
        idx := n - 1;
      }
      assert scratch[idx] == scratch[..n][idx];
      return Finite(scratch[idx]);
    }

    /** A score is anomalous when it exceeds the threshold of the window as it stands. */
    method IsAnomalous(id: nat, score: real, alpha: real) returns (anomalous: bool)
      requires Valid()
      modifies scratch
      ensures anomalous <==>
        match Quantile(Window(id), alpha) {
          case Infinite => false
          case Finite(t) => score > t
        }
    {
      var t := Threshold(id, alpha);
      return Exceeds(score, t);
    }
  }
}
