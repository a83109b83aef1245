/** Arithmetic of positions mapped onto the slots of a ring. */
module WindowArith {

  /** Two positions that share a slot are at least one lap apart. */
  lemma SameSlotLapApart(a: nat, b: nat, n: nat)
    requires n > 0 && a < b && a % n == b % n
    ensures a + n <= b
  {
    var qa, qb := a / n, b / n;
    assert a == qa * n + a % n && b == qb * n + b % n;
    assert (qb - qa) * n == qb * n - qa * n;
    ScaleUp(qb - qa, n);
  }

  /** The positions of one lap own different slots. */
  lemma LapIsInjective(lo: nat, n: nat)
    requires n > 0
    ensures forall a: nat, b: nat :: lo <= a < lo + n && lo <= b < lo + n && a % n == b % n ==> a == b
  {
    forall a: nat, b: nat | lo <= a < lo + n && lo <= b < lo + n && a % n == b % n
      ensures a == b
    {
      if a < b { SameSlotLapApart(a, b, n); }
      if b < a { SameSlotLapApart(b, a, n); }
    }
  }

  /** The position of the lap starting at `lo` that owns the slot of `pos`. */
  lemma OwnerInLap(lo: nat, pos: nat, n: nat) returns (owner: nat)
    requires n > 0
    ensures lo <= owner < lo + n && owner % n == pos % n
  {
    var r, l := pos % n, lo % n;
    owner := if r >= l then lo + (r - l) else lo + (r + n - l);
    var q := lo / n;
    assert lo == q * n + l;
    if r >= l {
      assert owner == q * n + r;
      ModOfSum(q, n, r);
    } else {
      assert owner == (q + 1) * n + r;
      ModOfSum(q + 1, n, r);
    }
  }

  lemma ScaleUp(d: nat, n: nat)
    requires d >= 1
    ensures d * n >= n
  {
  }

  lemma ModOfSum(q: nat, n: nat, r: nat)
    requires r < n
    ensures (q * n + r) % n == r && (q * n + r) / n == q
  {
    var x := q * n + r;
    var y, z := x / n, x % n;
    assert x == y * n + z;
    if y > q {
      assert (y - q) * n == y * n - q * n;
      ScaleUp(y - q, n);
      assert false;
    } else if y < q {
      assert (q - y) * n == q * n - y * n;
      ScaleUp(q - y, n);
      assert false;
    }
  }

  lemma SmallMod(x: nat, n: nat)
    requires x < n
    ensures x % n == x
  {
  }

  lemma AddLap(x: nat, n: nat)
    requires n > 0
    ensures (x + n) % n == x % n
  {
    assert x + n == (x / n + 1) * n + x % n;
    ModOfSum(x / n + 1, n, x % n);
  }

  /** Reducing before adding changes nothing. */
  lemma ModPlus(a: nat, i: nat, n: nat)
    requires n > 0
    ensures (a % n + i) % n == (a + i) % n
  {
    var q, w := a / n, a % n + i;
    assert a == q * n + a % n && w == (w / n) * n + w % n;
    assert q * n + (w / n) * n == (q + w / n) * n;
    assert a + i == (q + w / n) * n + w % n;
    ModOfSum(q + w / n, n, w % n);
  }
}
