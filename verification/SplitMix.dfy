/** The SplitMix64 generator on 64-bit words. */
module SplitMix {
  import opened Message
  import opened WordArith

  const GAMMA: U64 := 0x9E37_79B9_7F4A_7C15
  const FIRST_FACTOR: U64 := 0xBF58_476D_1CE4_E5B9
  const SECOND_FACTOR: U64 := 0x94D0_49BB_1331_11EB

  // Inverses of the three odd constants modulo 2^64.
  const GAMMA_INVERSE: U64 := 0xF1DE_83E1_9937_733D
  const FIRST_INVERSE: U64 := 0x96DE_1B17_3F11_9089
  const SECOND_INVERSE: U64 := 0x3196_42B2_D24D_8EC3

  function Xor64(x: U64, y: U64): U64 {
    Pow2Of64();
    XorBound(x, y, 64);
    BitXor(x, y)
  }

  function ShiftedRight(z: nat, k: nat): (r: nat)
    ensures r <= z
  {
    DivBound(z, Pow2(k));
    z / Pow2(k)
  }

  lemma DivBound(z: nat, p: nat)
    requires p >= 1
    ensures 0 <= z / p <= z
  {
  }

  /** z ^ (z >> k). */
  function ShiftXor(z: U64, k: nat): U64 { Xor64(z, ShiftedRight(z, k)) }

  function Advanced(state: U64): U64 { Wrap(state + GAMMA) }

  function Mixed(state: U64): U64 {
    ShiftXor(Wrap(ShiftXor(Wrap(ShiftXor(state, 30) * FIRST_FACTOR), 27) * SECOND_FACTOR), 31)
  }

  /** The state after `n` draws. */
  function StateAfter(seed: U64, n: nat): U64 {
    if n == 0 then seed else Advanced(StateAfter(seed, n - 1))
  }

  /** The n-th draw from a seed, counting from 0. */
  function Draw(seed: U64, n: nat): U64 { Mixed(StateAfter(seed, n + 1)) }

  // ----- Mixing loses nothing -----

  /** Twice the product of the half. */
  lemma HalfProduct(q: nat, p: nat)
    ensures 2 * (q / 2 * p) <= q * p && (q + 1) * p <= 2 * (q / 2 * p + p)
  {
    EvenOrOdd(q);
    Doubled(q / 2, p);
    OneMoreTime(q, p);
  }

  lemma EvenOrOdd(q: nat)
    ensures q == 2 * (q / 2) || q == 2 * (q / 2) + 1
  {
  }

  lemma Doubled(k: nat, p: nat)
    ensures (2 * k) * p == 2 * (k * p) && (2 * k + 1) * p == 2 * (k * p) + p
  {
  }

  lemma OneMoreTime(q: nat, p: nat)
    ensures (q + 1) * p == q * p + p
  {
  }

  lemma HalfWithin(x: nat, y: nat, p: nat)
    requires 2 * y <= x < 2 * (y + p)
    ensures y <= x / 2 < y + p
  {
  }

  lemma HalfOfQuotient(x: nat, p: nat)
    requires p >= 1
    ensures x / p / 2 == x / 2 / p
  {
    QuotientRemainder(x, p);
    HalfOf(x, p, x / p);
  }

  lemma HalfOf(x: nat, p: nat, q: nat)
    requires p >= 1 && q * p <= x < q * p + p
    ensures x / 2 / p == q / 2
  {
    HalfProduct(q, p);
    OneMoreTime(q, p);
    HalfWithin(x, q / 2 * p, p);
    QuotientIs(x / 2, p, q / 2);
  }

  lemma QuotientIs(h: nat, p: nat, q: nat)
    requires q * p <= h < q * p + p
    ensures h / p == q
  {
    QuotientRemainder(h, p);
    SameQuotient(h / p, q, p, h % p, h - q * p);
  }

  lemma SameQuotient(a: nat, b: nat, p: nat, r: nat, s: nat)
    requires r < p && s < p && a * p + r == b * p + s
    ensures a == b
  {
    if a < b {
      NextMultiple(a, b, p);
    } else if b < a {
      NextMultiple(b, a, p);
    }
  }

  lemma NextMultiple(a: nat, b: nat, p: nat)
    requires a < b
    ensures a * p + p <= b * p
  {
    assert (a + 1) * p <= b * p;
  }

  lemma HalfOfShift(x: nat, k: nat)
    ensures ShiftedRight(x, k) / 2 == ShiftedRight(x / 2, k)
  {
    HalfOfQuotient(x, Pow2(k));
  }

  lemma ShiftOfHalf(x: nat, k: nat)
    requires k >= 1
    ensures ShiftedRight(x, k) == ShiftedRight(x / 2, k - 1)
  {
    Pow2Doubles(k);
    QuotientOfHalf(x, Pow2(k - 1));
  }

  lemma QuotientOfHalf(x: nat, p: nat)
    requires p >= 1
    ensures x / (2 * p) == x / 2 / p
  {
    var q := x / 2 / p;
    QuotientRemainder(x / 2, p);
    assert q * (2 * p) == 2 * (q * p);
    QuotientIs(x, 2 * p, q);
  }

  /** A word is determined by its xor with its own right shift: recover it from the top. */
  lemma {:induction false} ShiftXorInjective(a: nat, b: nat, k: nat)
    requires k >= 1 && BitXor(a, ShiftedRight(a, k)) == BitXor(b, ShiftedRight(b, k))
    ensures a == b
    decreases a + b
  {
    if a > 0 || b > 0 {
      XorStep(a, ShiftedRight(a, k));
      XorStep(b, ShiftedRight(b, k));
      HalfOfShift(a, k);
      HalfOfShift(b, k);
      ShiftXorInjective(a / 2, b / 2, k);
      ShiftOfHalf(a, k);
      ShiftOfHalf(b, k);
      SameLowBit(a % 2, b % 2, ShiftedRight(a, k) % 2);
    }
  }

  lemma SameLowBit(x: nat, y: nat, s: nat)
    requires x < 2 && y < 2 && (x + s) % 2 == (y + s) % 2
    ensures x == y
  {
  }

  lemma FactorsInvertible(x: U64)
    ensures Wrap(Wrap(x * FIRST_FACTOR) * FIRST_INVERSE) == x
    ensures Wrap(Wrap(x * SECOND_FACTOR) * SECOND_INVERSE) == x
  {
    InverseModulo(x, FIRST_FACTOR, FIRST_INVERSE, WORD, 8125545580553827436);
    InverseModulo(x, SECOND_FACTOR, SECOND_INVERSE, WORD, 2077064247507883091);
  }

  /** Different states are mixed into different draws. */
  lemma MixedIsInjective(a: U64, b: U64)
    requires Mixed(a) == Mixed(b)
    ensures a == b
  {
    var a0, b0 := ShiftXor(a, 30), ShiftXor(b, 30);
    var a1, b1 := Wrap(a0 * FIRST_FACTOR), Wrap(b0 * FIRST_FACTOR);
    var a2, b2 := ShiftXor(a1, 27), ShiftXor(b1, 27);
    var a3, b3 := Wrap(a2 * SECOND_FACTOR), Wrap(b2 * SECOND_FACTOR);
    ShiftXorInjective(a3, b3, 31);
    FactorsInvertible(a2);
    FactorsInvertible(b2);
    ShiftXorInjective(a1, b1, 27);
    FactorsInvertible(a0);
    FactorsInvertible(b0);
    ShiftXorInjective(a, b, 30);
  }

  // ----- Draws -----

  lemma {:induction false} StateMeaning(seed: U64, n: nat)
    ensures StateAfter(seed, n) == Wrap(seed + n * GAMMA)
  {
    if n > 0 {
      StateMeaning(seed, n - 1);
      WrappedSum(seed + (n - 1) * GAMMA, GAMMA);
      assert seed + (n - 1) * GAMMA + GAMMA == seed + n * GAMMA;
    }
  }

  /** Adding less than 2^64 multiples of an odd constant moves the state. */
  lemma StatesDiffer(seed: U64, i: nat, j: nat)
    requires i < j < i + WORD
    ensures Wrap(seed + i * GAMMA) != Wrap(seed + j * GAMMA)
  {
    var n := j - i;
    if Wrap(seed + i * GAMMA) == Wrap(seed + j * GAMMA) {
      assert seed + j * GAMMA == seed + i * GAMMA + n * GAMMA;
      SameRemainder(seed + i * GAMMA, n * GAMMA);
      InverseModulo(n, GAMMA, GAMMA_INVERSE, WORD, 10771413168148108919);
      assert false;
    }
  }

  lemma SameRemainder(x: nat, y: nat)
    requires Wrap(x) == Wrap(x + y)
    ensures Wrap(y) == 0
  {
  }

  /** The same seed gives the same draws; 2^64 successive ones are all different. */
  lemma DrawsNeverRepeat(seed: U64, i: nat, j: nat)
    requires i < j < i + WORD
    ensures Draw(seed, i) != Draw(seed, j)
  {
    StateMeaning(seed, i + 1);
    StateMeaning(seed, j + 1);
    StatesDiffer(seed, i + 1, j + 1);
    if Draw(seed, i) == Draw(seed, j) {
      MixedIsInjective(StateAfter(seed, i + 1), StateAfter(seed, j + 1));
    }
  }

  /** Different seeds give different draws at every turn. */
  lemma SeedsDiffer(seed: U64, other: U64, n: nat)
    requires seed != other
    ensures Draw(seed, n) != Draw(other, n)
  {
    StateMeaning(seed, n + 1);
    StateMeaning(other, n + 1);
    WrappedDistance(if seed < other then other + (n + 1) * GAMMA else seed + (n + 1) * GAMMA,
                    if seed < other then seed + (n + 1) * GAMMA else other + (n + 1) * GAMMA);
    if Draw(seed, n) == Draw(other, n) {
      MixedIsInjective(StateAfter(seed, n + 1), StateAfter(other, n + 1));
    }
  }

  // ----- Every word is drawn -----

  ghost function Image(f: nat -> nat, n: nat): set<nat> { set x | 0 <= x < n :: f(x) }

  lemma {:induction false} ImageSize(f: nat -> nat, n: nat)
    requires forall x, y :: 0 <= x < n && 0 <= y < n && f(x) == f(y) ==> x == y
    ensures |Image(f, n)| == n
  {
    if n == 0 {
      assert Image(f, n) == {};
    } else {
      ImageSize(f, n - 1);
      assert Image(f, n) == Image(f, n - 1) + {f(n - 1)};
      assert f(n - 1) !in Image(f, n - 1);
    }
  }

  lemma {:induction false} SameSize(s: set<nat>, t: set<nat>)
    requires s <= t && |s| == |t|
    ensures s == t
  {
    if s != {} {
      var x :| x in s;
      SameSize(s - {x}, t - {x});
    }
  }

  /** A function from the numbers below n to themselves that tells them apart reaches them all. */
  lemma Pigeonhole(f: nat -> nat, n: nat, y: nat) returns (x: nat)
    requires forall x :: 0 <= x < n ==> f(x) < n
    requires forall x, y :: 0 <= x < n && 0 <= y < n && f(x) == f(y) ==> x == y
    requires y < n
    ensures x < n && f(x) == y
  {
    var same: nat -> nat := i => i;
    ImageSize(f, n);
    ImageSize(same, n);
    forall z | z in Image(f, n) ensures z in Image(same, n) {
      assert same(z) == z;
    }
    SameSize(Image(f, n), Image(same, n));
    assert same(y) == y;
    assert y in Image(f, n);
    x :| 0 <= x < n && f(x) == y;
  }

  /** Every word is the mix of some state. */
  lemma MixedReaches(z: U64) returns (state: U64)
    ensures Mixed(state) == z
  {
    var f: nat -> nat := (s: nat) => if s < WORD then Mixed(s) else s;
    forall a, b | 0 <= a < WORD && 0 <= b < WORD && f(a) == f(b) ensures a == b {
      MixedIsInjective(a, b);
    }
    var x := Pigeonhole(f, WORD, z);
    state := x;
  }

  lemma StateReaches(state: U64, n: nat) returns (seed: U64)
    ensures StateAfter(seed, n) == state
  {
    seed := WrappedDifference(state, n * GAMMA);
    StateMeaning(seed, n);
  }

  lemma WrappedDifference(x: U64, y: nat) returns (d: U64)
    ensures Wrap(d + y) == x
  {
    d := Wrap(x - y);
    WrappedSum(x - y, y);
  }

  /** Every word is the n-th draw from some seed; by SeedsDiffer from that one alone. */
  lemma DrawReaches(z: U64, n: nat) returns (seed: U64)
    ensures Draw(seed, n) == z
  {
    var state := MixedReaches(z);
    seed := StateReaches(state, n + 1);
  }
}
