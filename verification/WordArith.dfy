/** 64-bit unsigned arithmetic on natural numbers: wrap-around, powers of two and masks. */
module WordArith {
  import opened WindowArith

  const WORD: nat := 0x1_0000_0000_0000_0000

  /** An unsigned 64-bit result: the value modulo 2^64. */
  function Wrap(x: int): (w: nat)
    ensures w < WORD
  {
    x % WORD
  }

  /** Subtracting two wrapped counters that are less than 2^64 apart gives their distance. */
  lemma WrappedDistance(a: nat, b: nat)
    requires b <= a < b + WORD
    ensures Wrap(Wrap(a) - Wrap(b)) == a - b
    ensures Wrap(a) == Wrap(b) <==> a == b
  {
  }

  lemma WrappedSum(a: int, i: nat)
    ensures Wrap(Wrap(a) + i) == Wrap(a + i)
  {
  }

  function Pow2(k: nat): (p: nat)
    ensures p >= 1
  {
    if k == 0 then 1 else 2 * Pow2(k - 1)
  }

  lemma Pow2Doubles(k: nat)
    requires k > 0
    ensures Pow2(k) == 2 * Pow2(k - 1)
  {
  }

  lemma {:induction false} Pow2Sum(j: nat, k: nat)
    ensures Pow2(j + k) == Pow2(j) * Pow2(k)
  {
    if j > 0 {
      Pow2Sum(j - 1, k);
      assert Pow2(j + k) == 2 * Pow2(j - 1 + k);
      assert 2 * (Pow2(j - 1) * Pow2(k)) == Pow2(j) * Pow2(k);
    }
  }

  /** Bitwise and of two naturals, bit by bit. */
  function BitAnd(x: nat, y: nat): nat
    decreases x
  {
    if x == 0 then 0
    else (if x % 2 == 1 && y % 2 == 1 then 1 else 0) + 2 * BitAnd(x / 2, y / 2)
  }

  lemma {:induction false} BitAndZero(x: nat)
    ensures BitAnd(x, 0) == 0
    decreases x
  {
    if x > 0 { BitAndZero(x / 2); }
  }

  lemma ModDouble(x: nat, n: nat)
    requires n >= 1
    ensures x % (2 * n) == x % 2 + 2 * ((x / 2) % n)
  {
    var h := x / 2;
    assert h == (h / n) * n + h % n;
    assert x == (h / n) * (2 * n) + (x % 2 + 2 * (h % n));
    ModOfSum(h / n, 2 * n, x % 2 + 2 * (h % n));
  }

  lemma OddMask(x: nat, m: nat)
    ensures BitAnd(x, 2 * m + 1) == x % 2 + 2 * BitAnd(x / 2, m)
  {
    LowBit(1, m, 2 * m + 1);
  }

  /** Masking with 2^k - 1 is the remainder modulo 2^k. */
  lemma {:induction false} MaskIsMod(x: nat, k: nat)
    ensures BitAnd(x, Pow2(k) - 1) == x % Pow2(k)
    decreases k
  {
    if k == 0 {
      BitAndZero(x);
    } else {
      var m := Pow2(k - 1) - 1;
      MaskIsMod(x / 2, k - 1);
      ModDouble(x, m + 1);
      OddMask(x, m);
      assert Pow2(k) - 1 == 2 * m + 1;
    }
  }

  lemma EvenMask(x: nat, h: nat)
    ensures BitAnd(x, 2 * h) == 2 * BitAnd(x / 2, h)
  {
    LowBit(0, h, 2 * h);
  }

  /** Masking with ~(2^k - 1) rounds a word down to a multiple of 2^k. */
  lemma HighMaskRoundsDown(x: nat, k: nat, n: nat)
    requires k <= n && x < Pow2(n)
    ensures Pow2(k) <= Pow2(n) && BitAnd(x, Pow2(n) - Pow2(k)) == x - x % Pow2(k)
  {
    HighMask(x, k, n, Pow2(k), Pow2(n));
  }

  lemma {:induction false} HighMask(x: nat, k: nat, n: nat, p: nat, q: nat)
    requires k <= n && p == Pow2(k) && q == Pow2(n) && x < q
    ensures p <= q && BitAnd(x, q - p) == x - x % p
    decreases k
  {
    if k == 0 {
      FullMask(x, n);
    } else {
      Pow2Doubles(k);
      Pow2Doubles(n);
      HalfBelow(x, Pow2(n - 1));
      HighMask(x / 2, k - 1, n - 1, Pow2(k - 1), Pow2(n - 1));
      RoundsDownAgain(x, Pow2(k - 1), Pow2(n - 1), p, q);
    }
  }

  lemma HalfBelow(x: nat, p: nat)
    requires x < 2 * p
    ensures x / 2 < p
  {
  }

  lemma FullMask(x: nat, n: nat)
    requires x < Pow2(n)
    ensures BitAnd(x, Pow2(n) - 1) == x
  {
    MaskIsMod(x, n);
    SmallMod(x, Pow2(n));
  }

  lemma RoundsDownAgain(x: nat, p: nat, q: nat, p': nat, q': nat)
    requires 1 <= p <= q && BitAnd(x / 2, q - p) == x / 2 - x / 2 % p && p' == 2 * p && q' == 2 * q
    ensures p' <= q' && BitAnd(x, q' - p') == x - x % p'
  {
    EvenMask(x, q - p);
    ModDouble(x, p);
  }

  /** The capacity check of the rings: `(c & (c - 1)) == 0 && c > 0`. */
  predicate IsPowerOfTwo(c: nat) { c > 0 && BitAnd(c, c - 1) == 0 }

  lemma {:induction false} BitAndSelf(x: nat)
    ensures BitAnd(x, x) == x
    decreases x
  {
    if x > 0 {
      BitAndSelf(x / 2);
    }
  }

  lemma OddAnd(h: nat)
    ensures BitAnd(2 * h + 1, 2 * h) == 2 * BitAnd(h, h)
  {
    LowBit(1, h, 2 * h + 1);
    EvenMask(2 * h + 1, h);
  }

  lemma EvenAnd(h: nat)
    requires h > 0
    ensures BitAnd(2 * h, 2 * h - 1) == 2 * BitAnd(h, h - 1)
  {
    LowBit(0, h, 2 * h);
    OddMask(2 * h, h - 1);
    assert 2 * (h - 1) + 1 == 2 * h - 1;
  }

  lemma OddIsNoPower(c: nat)
    requires c % 2 == 1 && c > 1
    ensures forall k: nat :: c != Pow2(k)
  {
    forall k: nat ensures c != Pow2(k) {
      if k > 0 { Pow2Doubles(k); }
    }
  }

  /** The check accepts exactly the powers of two. */
  lemma {:induction false} PowerOfTwoCheck(c: nat)
    ensures IsPowerOfTwo(c) <==> exists k: nat :: c == Pow2(k)
    decreases c
  {
    if c == 0 {
    } else if c == 1 {
      BitAndZero(1);
      assert c == Pow2(0);
    } else if c % 2 == 1 {
      // c - 1 differs from c in the last bit only, so the and is c - 1 > 0
      BitAndSelf(c / 2);
      OddAnd(c / 2);
      OddIsNoPower(c);
    } else {
      var h := c / 2;
      PowerOfTwoCheck(h);
      EvenAnd(h);
      if IsPowerOfTwo(h) {
        var k: nat :| h == Pow2(k);
        assert c == Pow2(k + 1);
      } else {
        forall k: nat ensures c != Pow2(k) {
          if k > 0 {
            Pow2Doubles(k);
            assert h != Pow2(k - 1);
          }
        }
      }
    }
  }

  lemma ModOfMod(x: nat, c: nat, d: nat)
    requires c > 0 && d > 0
    ensures c * d > 0 && (x % (c * d)) % c == x % c
  {
    ScaleUp(d, c);
    QuotientRemainder(x, c * d);
    QuotientRemainder(x % (c * d), c);
    ModOfParts(c, d, x / (c * d), x % (c * d) / c, x % (c * d) % c, x);
  }

  lemma QuotientRemainder(x: nat, n: nat)
    requires n > 0
    ensures x == x / n * n + x % n && 0 <= x / n && 0 <= x % n < n
  {
  }

  lemma ModOfParts(c: nat, d: nat, e: nat, f: nat, r: nat, x: nat)
    requires r < c && x == e * (c * d) + (f * c + r)
    ensures x % c == r
  {
    Regroup(e, d, c, f);
    ModOfSum(e * d + f, c, r);
  }

  lemma Regroup(e: nat, d: nat, c: nat, f: nat)
    ensures e * (c * d) + f * c == (e * d + f) * c
  {
    assert e * (c * d) == (e * d) * c;
  }

  /** The slot of a counter does not notice the counter wrapping at 2^64. */
  lemma MaskAcrossWrap(x: nat, k: nat)
    requires k <= 64
    ensures BitAnd(Wrap(x), Pow2(k) - 1) == x % Pow2(k)
  {
    MaskIsMod(Wrap(x), k);
    Pow2Sum(k, 64 - k);
    Pow2Of64();
    ModOfMod(x, Pow2(k), Pow2(64 - k));
  }

  lemma Pow2Of64()
    ensures Pow2(64) == WORD
  {
    Pow2Of8();
    Pow2Sum(8, 8);
    assert Pow2(16) == 0x1_0000;
    Pow2Sum(16, 16);
    assert Pow2(32) == 0x1_0000_0000;
    Pow2Sum(32, 32);
  }

  lemma Pow2Of8()
    ensures Pow2(8) == 0x100
  {
    assert Pow2(4) == 16;
    Pow2Sum(4, 4);
  }

  lemma {:induction false} Pow2Monotone(j: nat, k: nat)
    requires j <= k
    ensures Pow2(j) <= Pow2(k)
  {
    if j < k { Pow2Monotone(j, k - 1); }
  }

  /** Bitwise exclusive or of two naturals. */
  function BitXor(x: nat, y: nat): nat
    decreases x + y
  {
    if x == 0 && y == 0 then 0 else (x % 2 + y % 2) % 2 + 2 * BitXor(x / 2, y / 2)
  }

  /** The definition without its base case. */
  lemma XorUnfolds(x: nat, y: nat)
    ensures BitXor(x, y) == (x % 2 + y % 2) % 2 + 2 * BitXor(x / 2, y / 2)
  {
  }

  lemma XorStep(x: nat, y: nat)
    ensures BitXor(x, y) == (x % 2 + y % 2) % 2 + 2 * BitXor(x / 2, y / 2)
    ensures BitXor(x, y) % 2 == (x % 2 + y % 2) % 2 && BitXor(x, y) / 2 == BitXor(x / 2, y / 2)
  {
    XorUnfolds(x, y);
    LowBit((x % 2 + y % 2) % 2, BitXor(x / 2, y / 2), BitXor(x, y));
  }

  lemma BitTwice(a: nat, b: nat)
    requires a < 2 && b < 2
    ensures ((a + b) % 2 + b) % 2 == a
  {
    if b == 0 {} else if a == 0 {} else {}
  }

  lemma LowBit(bit: nat, h: nat, z: nat)
    requires bit < 2 && z == bit + 2 * h
    ensures z % 2 == bit && z / 2 == h
  {
  }

  lemma {:induction false} XorBound(x: nat, y: nat, k: nat)
    requires x < Pow2(k) && y < Pow2(k)
    ensures BitXor(x, y) < Pow2(k)
    decreases k
  {
    if k > 0 { XorBound(x / 2, y / 2, k - 1); }
  }

  lemma {:induction false} XorTwice(x: nat, y: nat)
    ensures BitXor(BitXor(x, y), y) == x
    decreases x + y
  {
    if x > 0 || y > 0 {
      XorTwice(x / 2, y / 2);
      XorStep(x, y);
      XorStep(BitXor(x, y), y);
      BitTwice(x % 2, y % 2);
    }
  }

  lemma {:induction false} XorCommutes(x: nat, y: nat)
    ensures BitXor(x, y) == BitXor(y, x)
    decreases x + y
  {
    if x > 0 || y > 0 { XorCommutes(x / 2, y / 2); }
  }

  /** Bitwise or of two naturals. */
  function BitOr(x: nat, y: nat): nat
    decreases x + y
  {
    if x == 0 && y == 0 then 0
    else (if x % 2 == 1 || y % 2 == 1 then 1 else 0) + 2 * BitOr(x / 2, y / 2)
  }

  lemma {:induction false} OrZero(y: nat)
    ensures BitOr(0, y) == y
    decreases y
  {
    if y > 0 { OrZero(y / 2); }
  }

  /** Or-ing in bits above all the bits already there adds them. */
  lemma {:induction false} OrAboveAdds(x: nat, y: nat, k: nat)
    requires x < Pow2(k)
    ensures BitOr(x, y * Pow2(k)) == x + y * Pow2(k)
    decreases k
  {
    if k == 0 {
      OrZero(y);
    } else {
      var p := Pow2(k - 1);
      assert y * Pow2(k) == 2 * (y * p);
      OrAboveAdds(x / 2, y, k - 1);
    }
  }

  /** Multiplying by `p` and then by its inverse `q` does nothing modulo `n`. */
  lemma InverseModulo(x: nat, p: nat, q: nat, n: nat, j: nat)
    requires x < n && p * q == 1 + j * n
    ensures (x * p) % n * q % n == x
  {
    var k, w := x * p / n, (x * p) % n;
    assert x * p == k * n + w;
    assert w * q == (x * p) * q - (k * n) * q;
    assert (x * p) * q == x * (p * q);
    assert x * (p * q) == x + (x * j) * n;
    assert (k * n) * q == (k * q) * n;
    var c := x * j - k * q;
    assert (x * j) * n - (k * q) * n == c * n;
    assert w * q == c * n + x;
    assert w * q >= 0;
    ModOfSum(c, n, x);
  }
}
