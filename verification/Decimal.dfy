/** Decimal digits and the numbers they stand for. */
module Decimal {
  import opened Wrappers

  predicate IsDigit(c: char) { '0' <= c <= '9' }

  function DigitValue(c: char): (v: nat)
    requires IsDigit(c)
    ensures v < 10
  {
    c as int - '0' as int
  }

  function DigitChar(v: nat): (c: char)
    requires v < 10
    ensures IsDigit(c) && DigitValue(c) == v
  {
    ('0' as int + v) as char
  }

  predicate AllDigits(s: string) { forall i :: 0 <= i < |s| ==> IsDigit(s[i]) }

  /** The number a digit string stands for. */
  function Number(s: string): nat
    requires AllDigits(s)
  {
    if s == [] then 0 else Number(s[..|s| - 1]) * 10 + DigitValue(s[|s| - 1])
  }

  function Pow10(n: nat): (p: nat)
    ensures p >= 1
  {
    if n == 0 then 1 else 10 * Pow10(n - 1)
  }

  /** `v` as exactly `n` digits. */
  function Padded(v: nat, n: nat): (s: string)
    ensures |s| == n && AllDigits(s)
  {
    if n == 0 then [] else Padded(v / 10, n - 1) + [DigitChar(v % 10)]
  }

  lemma LastDigit(v: nat, p: nat)
    requires v < 10 * p
    ensures v / 10 < p && v / 10 * 10 + v % 10 == v
  {
  }

  lemma NumberGrows(s: string, c: char)
    requires AllDigits(s) && IsDigit(c)
    ensures Number(s + [c]) == Number(s) * 10 + DigitValue(c)
  {
    assert (s + [c])[..|s|] == s;
  }

  lemma {:induction false} PaddedRoundTrip(v: nat, n: nat)
    requires v < Pow10(n)
    ensures Number(Padded(v, n)) == v
  {
    if n > 0 {
      LastDigit(v, Pow10(n - 1));
      PaddedRoundTrip(v / 10, n - 1);
      NumberGrows(Padded(v / 10, n - 1), DigitChar(v % 10));
    }
  }

  lemma {:induction false} Pow10Sum(j: nat, k: nat)
    ensures Pow10(j + k) == Pow10(j) * Pow10(k)
  {
    if j > 0 {
      Pow10Sum(j - 1, k);
      assert 10 * (Pow10(j - 1) * Pow10(k)) == Pow10(j) * Pow10(k);
    }
  }

  /** `v` without leading zeros. */
  function Digits(v: nat): (s: string)
    ensures s != [] && AllDigits(s)
  {
    if v < 10 then [DigitChar(v)] else Digits(v / 10) + [DigitChar(v % 10)]
  }

  lemma {:induction false} DigitsRoundTrip(v: nat)
    ensures Number(Digits(v)) == v
  {
    var s := Digits(v);
    if v < 10 {
      assert s[..0] == [];
    } else {
      DigitsRoundTrip(v / 10);
      NumberGrows(Digits(v / 10), DigitChar(v % 10));
    }
  }

  /** Any integer in decimal, as an output stream writes it. */
  function Signed(x: int): string {
    if x < 0 then "-" + Digits(-x) else Digits(x)
  }

  /** Digits are decimal, the highest first. */
  lemma SomeNumbers()
    ensures Digits(0) == "0" && Digits(907) == "907" && Signed(-15) == "-15"
  {
    assert Digits(9) == "9" && Digits(90) == "90" && Digits(1) == "1" && Digits(15) == "15";
  }

  /** std::from_chars on a whole field: digits only, or None. */
  function ParseUnsigned(s: string, limit: nat): Option<nat> {
    if s != [] && AllDigits(s) && Number(s) < limit then Some(Number(s)) else None
  }

  /** The same with an optional minus sign, for values in [-limit, limit). */
  function ParseSigned(s: string, limit: int): Option<int>
    requires limit >= 0
  {
    if s != [] && s[0] == '-' then
      (if s[1..] != [] && AllDigits(s[1..]) && Number(s[1..]) <= limit then Some(-(Number(s[1..]) as int)) else None)
    else ParseUnsigned(s, limit)
  }

  lemma UnsignedRoundTrip(v: nat, limit: nat)
    requires v < limit
    ensures ParseUnsigned(Digits(v), limit) == Some(v)
  {
    DigitsRoundTrip(v);
  }

  lemma SignedRoundTrip(x: int, limit: int)
    requires limit >= 0 && -limit <= x < limit
    ensures ParseSigned(Signed(x), limit) == Some(x)
  {
    if x < 0 {
      DigitsRoundTrip(-x);
      ParseNegative(Digits(-x), limit);
    } else {
      DigitsRoundTrip(x);
      ParsePositive(Digits(x), limit);
    }
  }

  lemma ParseNegative(ds: string, limit: nat)
    requires ds != [] && AllDigits(ds) && Number(ds) <= limit
    ensures ParseSigned("-" + ds, limit) == Some(-(Number(ds) as int))
  {
    assert ("-" + ds)[1..] == ds;
  }

  lemma ParsePositive(ds: string, limit: nat)
    requires ds != [] && AllDigits(ds) && Number(ds) < limit
    ensures ParseSigned(ds, limit) == Some(Number(ds))
  {
    assert IsDigit(ds[0]);
  }
}
