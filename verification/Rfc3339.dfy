/** RFC 3339 timestamps to nanoseconds since 1970. */
module Rfc3339 {
  import opened Calendar
  import opened Decimal
  import opened Wrappers

  // ----- What a timestamp means -----

  /** The value of the fraction digits, 0 <= r < 1. */
  function Fraction(ds: string): (r: real)
    requires AllDigits(ds)
    ensures 0.0 <= r < 1.0
  {
    if ds == [] then 0.0 else (DigitValue(ds[0]) as real + Fraction(ds[1..])) / 10.0
  }

  /** The first `n` fraction digits as a whole number, short fractions padded with zeros. */
  function Leading(ds: string, n: nat): nat
    requires AllDigits(ds)
    decreases n
  {
    if n == 0 || ds == [] then 0 else DigitValue(ds[0]) * Pow10(n - 1) + Leading(ds[1..], n - 1)
  }

  /** A fraction of `p` units, and the same rounded down. */
  function Share(fraction: real, p: nat): real { fraction * p as real }

  function Units(fraction: real, p: nat): int { Share(fraction, p).Floor }

  /** They are the fraction scaled and rounded down. */
  lemma {:induction false} LeadingIsFloor(ds: string, n: nat)
    requires AllDigits(ds)
    ensures Leading(ds, n) == Units(Fraction(ds), Pow10(n))
    decreases n
  {
    if ds == [] {
      NoUnits(Pow10(n));
    } else if n == 0 {
      OneUnit(Fraction(ds));
    } else {
      LeadingIsFloor(ds[1..], n - 1);
      UnitsOfDigit(DigitValue(ds[0]), Fraction(ds[1..]), Pow10(n - 1));
    }
  }

  lemma NoUnits(p: nat)
    ensures Units(0.0, p) == 0
  {
  }

  lemma OneUnit(r: real)
    requires 0.0 <= r < 1.0
    ensures Units(r, 1) == 0
  {
    assert r * 1.0 == r;
  }

  lemma ShareOfDigit(d: nat, rest: real, p: nat)
    ensures Share((d as real + rest) / 10.0, 10 * p) == (d * p) as real + Share(rest, p)
  {
    var q := p as real;
    assert (10 * p) as real == 10.0 * q && (d * p) as real == d as real * q;
    assert (d as real + rest) / 10.0 * (10.0 * q) == (d as real + rest) * q;
  }

  lemma UnitsOfDigit(d: nat, rest: real, p: nat)
    ensures Units((d as real + rest) / 10.0, 10 * p) == d * p + Units(rest, p)
  {
    ShareOfDigit(d, rest, p);
    FloorShift(d * p, Share(rest, p));
  }

  lemma FloorShift(k: int, r: real)
    ensures (k as real + r).Floor == k + r.Floor
  {
  }

  /** Accumulating digits and then padding with zeros gives the leading digits. */
  lemma {:induction false} NumberIsLeading(ds: string, n: nat)
    requires AllDigits(ds) && |ds| <= n
    ensures Leading(ds, n) == Number(ds) * Pow10(n - |ds|)
    decreases n
  {
    if ds != [] {
      NumberIsLeading(ds[1..], n - 1);
      NumberFromFront(ds);
      Pow10Sum(|ds| - 1, n - |ds|);
      FrontDigit(DigitValue(ds[0]), Pow10(|ds| - 1), Number(ds[1..]), Pow10(n - |ds|));
    }
  }

  lemma FrontDigit(d: nat, p: nat, rest: nat, q: nat)
    ensures d * (p * q) + rest * q == (d * p + rest) * q
  {
    assert d * (p * q) == (d * p) * q;
  }

  lemma {:induction false} NumberFromFront(ds: string)
    requires AllDigits(ds) && ds != []
    ensures Number(ds) == DigitValue(ds[0]) * Pow10(|ds| - 1) + Number(ds[1..])
  {
    var n := |ds| - 1;
    if n > 0 {
      NumberFromFront(ds[..n]);
      assert ds[..n][1..] == ds[1..][..n - 1];
      assert Pow10(n) == 10 * Pow10(n - 1);
      Shift(DigitValue(ds[0]), Pow10(n - 1), Number(ds[..n][1..]), DigitValue(ds[n]));
    } else {
      assert ds[..0] == [] && ds[1..] == [];
    }
  }

  lemma Shift(d: nat, p: nat, rest: nat, c: nat)
    ensures (d * p + rest) * 10 + c == d * (10 * p) + (rest * 10 + c)
  {
    assert (d * p) * 10 == d * (10 * p);
  }

  /** Digits past the n-th make no difference. */
  lemma {:induction false} LeadingIgnoresRest(ds: string, n: nat)
    requires AllDigits(ds) && n <= |ds|
    ensures Leading(ds, n) == Leading(ds[..n], n)
    decreases n
  {
    if n > 0 {
      LeadingIgnoresRest(ds[1..], n - 1);
      assert ds[..n][1..] == ds[1..][..n - 1];
    }
  }

  // ----- The parser as a function of the text -----

  const NANOS: nat := 1_000_000_000

  /** The numbers in a timestamp. */
  datatype Fields = Fields(year: int, mon: int, day: int, hour: int, min: int, sec: int)

  /** The text starts with YYYY-MM-DD, a separator, and HH:MM:SS. */
  predicate WellFormed(s: string) {
    && |s| >= 19
    && AllDigits(s[0..4]) && s[4] == '-'
    && AllDigits(s[5..7]) && s[7] == '-'
    && AllDigits(s[8..10]) && s[10] in {'T', 't', ' '}
    && AllDigits(s[11..13]) && s[13] == ':'
    && AllDigits(s[14..16]) && s[16] == ':'
    && AllDigits(s[17..19])
  }

  function FieldsOf(s: string): Fields
    requires WellFormed(s)
  {
    Fields(Number(s[0..4]), Number(s[5..7]), Number(s[8..10]),
           Number(s[11..13]), Number(s[14..16]), Number(s[17..19]))
  }

  /** How many digits start at `i`. */
  function DigitRun(s: string, i: nat): (n: nat)
    requires i <= |s|
    ensures i + n <= |s| && AllDigits(s[i..i + n])
    ensures i + n < |s| ==> !IsDigit(s[i + n])
    decreases |s| - i
  {
    if i < |s| && IsDigit(s[i]) then
      var n := DigitRun(s, i + 1);
      assert s[i..i + 1 + n] == [s[i]] + s[i + 1..i + 1 + n];
      n + 1
    else 0
  }

  /** All digits that start at `i`. */
  function DigitsAt(s: string, i: nat): (ds: string)
    requires i <= |s|
    ensures AllDigits(ds)
  {
    s[i..i + DigitRun(s, i)]
  }

  /** The digits after the decimal point, if there is one at `i`. */
  function FractionDigits(s: string, i: nat): (ds: string)
    requires i <= |s|
    ensures AllDigits(ds)
  {
    if i < |s| && s[i] == '.' then DigitsAt(s, i + 1) else []
  }

  /** Seconds since 1970; only month and day are checked. */
  function Seconds(f: Fields): Option<int> {
    if f.mon < 1 || f.mon > 12 || f.day < 1 || f.day > 31 then None
    else Some(DaysFromCivil(f.year, f.mon, f.day) * 86400 + f.hour * 3600 + f.min * 60 + f.sec)
  }

  /** What the parser returns: None where it returns false. */
  function Parsed(s: string): Option<int> {
    if !WellFormed(s) then None
    else
      match Seconds(FieldsOf(s))
      case None => None
      case Some(secs) => Some(secs * NANOS + Leading(FractionDigits(s, 19), 9))
  }

  /** Two digits as a number. */
  function TwoDigits(a: char, b: char): int { (a as int - '0' as int) * 10 + (b as int - '0' as int) }

  lemma PairIsNumber(s: string, i: nat)
    requires i + 2 <= |s|
    ensures AllDigits(s[i..i + 2]) <==> IsDigit(s[i]) && IsDigit(s[i + 1])
    ensures AllDigits(s[i..i + 2]) ==> Number(s[i..i + 2]) == TwoDigits(s[i], s[i + 1])
  {
    var t := s[i..i + 2];
    assert t[0] == s[i] && t[1] == s[i + 1];
    if AllDigits(t) {
      assert t[..1] == [s[i]] && [s[i]][..0] == [];
      assert Number([s[i]]) == DigitValue(s[i]);
    }
  }

  /** A text is parsed exactly when its first nineteen characters are digits and separators
      in their places, the month is one of twelve and the day at most the 31st; day 31 of
      February, hour 99 and anything after the seconds pass. */
  lemma ParsedIff(s: string)
    ensures Parsed(s).Some? <==>
      && |s| >= 19
      && (forall i :: 0 <= i < 19 && i !in {4, 7, 10, 13, 16} ==> IsDigit(s[i]))
      && s[4] == s[7] == '-' && s[10] in {'T', 't', ' '} && s[13] == s[16] == ':'
      && 1 <= TwoDigits(s[5], s[6]) <= 12 && 1 <= TwoDigits(s[8], s[9]) <= 31
  {
    if |s| >= 19 {
      WellFormedIff(s);
      PairIsNumber(s, 5);
      PairIsNumber(s, 8);
    }
  }

  lemma WellFormedIff(s: string)
    requires |s| >= 19
    ensures WellFormed(s) <==>
      && (forall i :: 0 <= i < 19 && i !in {4, 7, 10, 13, 16} ==> IsDigit(s[i]))
      && s[4] == s[7] == '-' && s[10] in {'T', 't', ' '} && s[13] == s[16] == ':'
  {
    PairIsNumber(s, 0);
    PairIsNumber(s, 2);
    assert s[0..4] == s[0..2] + s[2..4];
    PairIsNumber(s, 5);
    PairIsNumber(s, 8);
    PairIsNumber(s, 11);
    PairIsNumber(s, 14);
    PairIsNumber(s, 17);
  }

  // ----- The parser itself -----

  /** Reads `count` digits at `i`; where it returns false nothing has moved. */
  method ReadUint(s: string, i: nat, count: nat, last: int) returns (ok: bool, next: nat, out: int)
    requires i <= |s|
    ensures ok <==> i + count <= |s| && AllDigits(s[i..i + count])
    ensures ok ==> next == i + count && out == Number(s[i..i + count])
    ensures !ok ==> next == i && out == last
  {
    if i + count > |s| {
      return false, i, last;
    }
    var v := 0;
    for k := 0 to count
      invariant AllDigits(s[i..i + k]) && v == Number(s[i..i + k])
    {
      var c := s[i + k];
      if !IsDigit(c) {
        assert !IsDigit(s[i..i + count][k]);
        return false, i, last;
      }
      assert s[i..i + (k + 1)] == s[i..i + k] + [c];
      assert s[i..i + (k + 1)][..k] == s[i..i + k];
      v := v * 10 + DigitValue(c);
    }
    return true, i + count, v;
  }

  function FirstNine(ds: string): nat { if |ds| <= 9 then |ds| else 9 }

  /** Accumulates the digits at `start`, at most nine of them, and skips the others. */
  method ReadDigits(s: string, start: nat) returns (value: nat, digits: nat)
    requires start <= |s|
    ensures digits == FirstNine(DigitsAt(s, start)) && value == Number(DigitsAt(s, start)[..digits])
  {
    ghost var n := DigitRun(s, start);
    ghost var run := DigitsAt(s, start);
    value, digits := 0, 0;
    var i := start;
    while i < |s| && IsDigit(s[i]) && digits < 9
      invariant i == start + digits && digits <= 9 && digits <= n
      invariant value == Number(run[..digits])
      decreases |s| - i
    {
      assert run[digits] == s[i];
      assert run[..digits + 1][..digits] == run[..digits];
      value := value * 10 + DigitValue(s[i]);
      i := i + 1;
      digits := digits + 1;
    }
    assert digits == if n <= 9 then n else 9;
    while i < |s| && IsDigit(s[i]) {
      i := i + 1;
    }
  }

  /** Multiplies by ten until nine digits are accounted for. */
  method PadDigits(value: nat, digits: nat) returns (padded: nat)
    requires digits <= 9
    ensures padded == value * Pow10(9 - digits)
  {
    padded := value;
    var n := digits;
    while n < 9
      invariant digits <= n <= 9
      invariant padded * Pow10(9 - n) == value * Pow10(9 - digits)
    {
      TenTimes(padded, Pow10(9 - n - 1));
      padded := padded * 10;
      n := n + 1;
    }
  }

  lemma TenTimes(x: nat, p: nat)
    ensures x * (10 * p) == (x * 10) * p
  {
  }

  lemma ReadAndPadded(run: string, digits: nat)
    requires AllDigits(run) && digits == FirstNine(run)
    ensures Number(run[..digits]) * Pow10(9 - digits) == Leading(run, 9)
  {
    if |run| > 9 {
      LeadingIgnoresRest(run, 9);
    } else {
      assert run[..digits] == run;
    }
    NumberIsLeading(run[..digits], 9);
  }

  /** Reads the fraction at `i`: at most nine digits count, the rest are skipped. */
  method ReadFraction(s: string, i: nat) returns (fracNs: nat)
    requires i <= |s|
    ensures fracNs == Leading(FractionDigits(s, i), 9)
  {
    fracNs := 0;
    if i < |s| && s[i] == '.' {
      var value, digits := ReadDigits(s, i + 1);
      ReadAndPadded(DigitsAt(s, i + 1), digits);
      fracNs := PadDigits(value, digits);
    }
  }

  /** Reads `count` digits and the separator after them. */
  method ReadField(s: string, i: nat, count: nat, separators: set<char>) returns (ok: bool, next: nat, out: int)
    requires i <= |s|
    ensures ok <==> i + count < |s| && AllDigits(s[i..i + count]) && s[i + count] in separators
    ensures ok ==> next == i + count + 1 <= |s| && out == Number(s[i..i + count])
  {
    ok, next, out := ReadUint(s, i, count, 0);
    if !ok || next >= |s| || s[next] !in separators {
      return false, i, 0;
    }
    return true, next + 1, out;
  }

  /** Reads the six numbers; the fraction, if any, starts at index 19. */
  method ReadFields(s: string) returns (ok: bool, f: Fields)
    ensures ok <==> WellFormed(s)
    ensures ok ==> f == FieldsOf(s)
  {
    f := Fields(0, 0, 0, 0, 0, 0);
    var i, year, mon, day, hour, min, sec;
    ok, i, year := ReadField(s, 0, 4, {'-'});
    if !ok { return; }
    ok, i, mon := ReadField(s, i, 2, {'-'});
    if !ok { return; }
    ok, i, day := ReadField(s, i, 2, {'T', 't', ' '});
    if !ok { return; }
    ok, i, hour := ReadField(s, i, 2, {':'});
    if !ok { return; }
    ok, i, min := ReadField(s, i, 2, {':'});
    if !ok { return; }
    ok, i, sec := ReadUint(s, i, 2, 0);
    f := Fields(year, mon, day, hour, min, sec);
  }

  method ParseRfc3339Ns(s: string) returns (ns: Option<int>)
    ensures ns == Parsed(s)
  {
    var ok, f := ReadFields(s);
    if !ok { return None; }
    var secs := Seconds(f);
    if secs.None? { return None; }
    var fracNs := ReadFraction(s, 19);
    return Some(secs.value * NANOS + fracNs);
  }

  // ----- The timestamps of section 5.6 of RFC 3339 -----

  datatype Offset = Zulu(letter: char) | Numeric(east: bool, hours: nat, minutes: nat) {
    predicate Valid() {
      match this
      case Zulu(letter) => letter in {'Z', 'z'}
      case Numeric(_, hours, minutes) => hours < 24 && minutes < 60
    }

    /** Minutes ahead of UTC. */
    function Minutes(): int {
      match this
      case Zulu(_) => 0
      case Numeric(east, hours, minutes) => if east then hours * 60 + minutes else -(hours * 60 + minutes)
    }

    function Text(): string {
      match this
      case Zulu(letter) => [letter]
      case Numeric(east, hours, minutes) =>
        (if east then "+" else "-") + Padded(hours, 2) + ":" + Padded(minutes, 2)
    }
  }

  function DateText(y: nat, m: nat, d: nat): (s: string)
    ensures |s| == 10
    ensures s[0..4] == Padded(y, 4) && s[4] == '-' && s[5..7] == Padded(m, 2) && s[7] == '-'
    ensures s[8..10] == Padded(d, 2)
  {
    Padded(y, 4) + "-" + Padded(m, 2) + "-" + Padded(d, 2)
  }

  function ClockText(h: nat, m: nat, sec: nat): (s: string)
    ensures |s| == 8
    ensures s[0..2] == Padded(h, 2) && s[2] == ':' && s[3..5] == Padded(m, 2) && s[5] == ':'
    ensures s[6..8] == Padded(sec, 2)
  {
    Padded(h, 2) + ":" + Padded(m, 2) + ":" + Padded(sec, 2)
  }

  /** A date-time without leap second; `fraction` is its digits, if any. */
  datatype Timestamp = Timestamp(
    date: Date, separator: char, hour: nat, minute: nat, second: nat, fraction: string, offset: Offset)
  {
    predicate Valid() {
      && date.Valid() && 0 <= date.y <= 9999
      && separator in {'T', 't', ' '}
      && hour < 24 && minute < 60 && second < 60
      && AllDigits(fraction)
      && offset.Valid()
    }

    function Head(): string
      requires Valid()
    {
      DateText(date.y, date.m, date.d) + [separator] + ClockText(hour, minute, second)
    }

    function Tail(): string {
      (if fraction == [] then [] else "." + fraction) + offset.Text()
    }

    function Text(): string
      requires Valid()
    {
      Head() + Tail()
    }

    /** Whole seconds since 1970 on the local clock. */
    function LocalSeconds(): int {
      date.Days() * 86400 + hour * 3600 + minute * 60 + second
    }

    /** Whole nanoseconds since 1970 on the local clock. */
    function LocalNanos(): int
      requires Valid()
    {
      LocalSeconds() * NANOS + Leading(fraction, 9)
    }

    /** The instant in nanoseconds since 1970 UTC, exactly. */
    function Instant(): real
      requires Valid()
    {
      InstantOf(LocalSeconds(), offset.Minutes(), Fraction(fraction))
    }
  }

  function InstantOf(localSeconds: int, offsetMinutes: int, fraction: real): real {
    ((localSeconds - offsetMinutes * 60) * NANOS) as real + Share(fraction, NANOS)
  }

  lemma InstantFloor(localSeconds: int, offsetMinutes: int, fraction: real)
    ensures InstantOf(localSeconds, offsetMinutes, fraction).Floor
         == (localSeconds - offsetMinutes * 60) * NANOS + Units(fraction, NANOS)
  {
    FloorShift((localSeconds - offsetMinutes * 60) * NANOS, Share(fraction, NANOS));
  }

  lemma NanosIsPow10()
    ensures Pow10(9) == NANOS
  {
    assert Pow10(3) == 1000;
    Pow10Sum(3, 3);
    Pow10Sum(3, 6);
  }

  /** A text starting with a date and a clock reads back as their numbers. */
  lemma HeadReadsBack(s: string, date: string, sep: char, clock: string, rest: string)
    requires s == date + [sep] + clock + rest && |date| == 10 && |clock| == 8
    ensures |s| >= 19 && s[19..] == rest && s[10] == sep
    ensures s[0..4] == date[0..4] && s[4] == date[4] && s[5..7] == date[5..7] && s[7] == date[7]
    ensures s[8..10] == date[8..10]
    ensures s[11..13] == clock[0..2] && s[13] == clock[2] && s[14..16] == clock[3..5] && s[16] == clock[5]
    ensures s[17..19] == clock[6..8]
  {
  }

  lemma FieldsRoundTrip(t: Timestamp)
    requires t.Valid()
    ensures WellFormed(t.Text()) && t.Text()[19..] == t.Tail()
    ensures FieldsOf(t.Text()) == Fields(t.date.y, t.date.m, t.date.d, t.hour, t.minute, t.second)
  {
    HeadReadsBack(t.Text(), DateText(t.date.y, t.date.m, t.date.d), t.separator,
                  ClockText(t.hour, t.minute, t.second), t.Tail());
    assert Pow10(2) == 100 && Pow10(4) == 10000;
    PaddedRoundTrip(t.date.y, 4);
    PaddedRoundTrip(t.date.m, 2);
    PaddedRoundTrip(t.date.d, 2);
    PaddedRoundTrip(t.hour, 2);
    PaddedRoundTrip(t.minute, 2);
    PaddedRoundTrip(t.second, 2);
  }

  lemma {:induction false} RunOf(s: string, i: nat, ds: string, rest: string)
    requires i <= |s| && s[i..] == ds + rest && AllDigits(ds) && (rest == [] || !IsDigit(rest[0]))
    ensures DigitRun(s, i) == |ds|
    decreases |ds|
  {
    if ds != [] {
      assert s[i] == ds[0];
      assert s[i + 1..] == ds[1..] + rest;
      RunOf(s, i + 1, ds[1..], rest);
    } else if rest != [] {
      assert s[i] == rest[0];
    }
  }

  lemma FractionReadsBack(s: string, fraction: string, rest: string)
    requires |s| >= 19 && s[19..] == (if fraction == [] then [] else "." + fraction) + rest
    requires AllDigits(fraction) && rest != [] && !IsDigit(rest[0]) && rest[0] != '.'
    ensures FractionDigits(s, 19) == fraction
  {
    if fraction == [] {
      assert s[19] == s[19..][0] == rest[0];
    } else {
      assert s[19] == s[19..][0] == '.';
      assert s[20..] == s[19..][1..] == fraction + rest;
      RunOf(s, 20, fraction, rest);
      assert s[20..20 + |fraction|] == fraction;
    }
  }

  lemma FractionRoundTrip(t: Timestamp)
    requires t.Valid()
    ensures |t.Text()| >= 19 && FractionDigits(t.Text(), 19) == t.fraction
  {
    FieldsRoundTrip(t);
    OffsetStart(t.offset);
    FractionReadsBack(t.Text(), t.fraction, t.offset.Text());
  }

  lemma OffsetStart(o: Offset)
    requires o.Valid()
    ensures o.Text() != [] && !IsDigit(o.Text()[0]) && o.Text()[0] != '.'
  {
  }

  /** What the parser makes of a valid timestamp: its local clock, nanoseconds rounded down,
      whatever the offset says. */
  lemma ParsedIsLocal(t: Timestamp)
    requires t.Valid()
    ensures Parsed(t.Text()) == Some(t.LocalNanos())
  {
    FieldsRoundTrip(t);
    FractionRoundTrip(t);
    ParsedFromParts(t, t.Text());
  }

  lemma ParsedFromParts(t: Timestamp, s: string)
    requires t.Valid() && WellFormed(s)
    requires FieldsOf(s) == Fields(t.date.y, t.date.m, t.date.d, t.hour, t.minute, t.second)
    requires FractionDigits(s, 19) == t.fraction
    ensures Parsed(s) == Some(t.LocalNanos())
  {
  }

  /** So the parsed value is the instant, rounded down to a nanosecond, exactly when the
      offset is zero; the source ignores it. */
  lemma ParsedIsInstantIff(t: Timestamp)
    requires t.Valid()
    ensures Parsed(t.Text()) == Some(t.Instant().Floor) <==> t.offset.Minutes() == 0
  {
    ParsedIsLocal(t);
    LocalIsInstantIff(t, Parsed(t.Text()));
  }

  lemma LocalIsInstantIff(t: Timestamp, parsed: Option<int>)
    requires t.Valid() && parsed == Some(t.LocalNanos())
    ensures parsed == Some(t.Instant().Floor) <==> t.offset.Minutes() == 0
  {
    LocalIsInstant(t);
  }

  /** Half past five in the afternoon in India is not half past five UTC. */
  lemma OffsetIsIgnored()
    ensures var t := Timestamp(Date(2026, 7, 8), 'T', 17, 30, 0, "", Numeric(true, 5, 30));
      t.Valid() && Parsed(t.Text()).Some? && Parsed(t.Text()) != Some(t.Instant().Floor)
  {
    var t := Timestamp(Date(2026, 7, 8), 'T', 17, 30, 0, "", Numeric(true, 5, 30));
    ParsedIsLocal(t);
    ParsedIsInstantIff(t);
  }

  /** In the years 1678 to 2261 the result fits a signed 64-bit integer. */
  lemma ParsedFits(t: Timestamp)
    requires t.Valid() && 1678 <= t.date.y <= 2261
    ensures Parsed(t.Text()) == Some(t.LocalNanos())
    ensures -0x8000_0000_0000_0000 <= t.LocalNanos() < 0x8000_0000_0000_0000
  {
    ParsedIsLocal(t);
    LeadingBelow(t.fraction, 9);
    NanosIsPow10();
    DaysInRange(t.date);
  }

  lemma DaysInRange(date: Date)
    requires date.Valid() && 1678 <= date.y <= 2261
    ensures -106650 <= date.Days() <= 106650
  {
    DaysMeaning(date);
    var y := MarchYear(date);
    WithinMarchYear(date);
    if y < 1678 {
      assert MarchFirst(1677) == -106956 && MonthOffset(date.m) >= 306;
    } else {
      MarchFirstMonotone(1678, y);
      MarchFirstMonotone(y, 2261);
      assert MarchFirst(1678) == -106591 && MarchFirst(2261) == 106345;
      assert y == 2261 ==> MonthOffset(date.m) <= 275;
    }
  }

  lemma {:induction false} LeadingBelow(ds: string, n: nat)
    requires AllDigits(ds)
    ensures Leading(ds, n) < Pow10(n)
    decreases n
  {
    if n > 0 && ds != [] {
      LeadingBelow(ds[1..], n - 1);
      DigitBelow(DigitValue(ds[0]), Pow10(n - 1), Leading(ds[1..], n - 1));
    }
  }

  lemma DigitBelow(d: nat, p: nat, rest: nat)
    requires d <= 9 && rest < p
    ensures d * p + rest < 10 * p
  {
    assert d * p <= 9 * p;
  }

  /** What the parser makes of two texts is in order. */
  predicate ParsedInOrder(t: Timestamp, u: Timestamp)
    requires t.Valid() && u.Valid()
  {
    var p, q := Parsed(t.Text()), Parsed(u.Text());
    p.Some? && q.Some? && p.value <= q.value
  }

  lemma InOrderIff(t: Timestamp, u: Timestamp)
    requires t.Valid() && u.Valid()
    ensures ParsedInOrder(t, u) <==> t.LocalNanos() <= u.LocalNanos()
  {
    ParsedIsLocal(t);
    ParsedIsLocal(u);
  }

  /** Parsing keeps the order of instants as long as the offset does not fall. */
  lemma ParsedKeepsOrder(t: Timestamp, u: Timestamp)
    requires t.Valid() && u.Valid() && t.offset.Minutes() <= u.offset.Minutes()
    requires t.Instant() <= u.Instant()
    ensures ParsedInOrder(t, u)
  {
    LocalIsInstant(t);
    LocalIsInstant(u);
    InOrderIff(t, u);
  }

  /** The local clock runs ahead of the instant by the offset. */
  lemma LocalIsInstant(t: Timestamp)
    requires t.Valid()
    ensures t.LocalNanos() == t.Instant().Floor + t.offset.Minutes() * 60 * NANOS
  {
    LeadingIsFloor(t.fraction, 9);
    NanosIsPow10();
    InstantFloor(t.LocalSeconds(), t.offset.Minutes(), Fraction(t.fraction));
  }

  /** Timestamps with these two offsets are always parsed in the order of their instants. */
  ghost predicate KeepsOrder(o: Offset, p: Offset) {
    forall t: Timestamp, u: Timestamp ::
      t.Valid() && u.Valid() && t.offset == o && u.offset == p && t.Instant() <= u.Instant() ==> ParsedInOrder(t, u)
  }

  /** That is so exactly when the first offset is at most the second. */
  lemma KeepsOrderIff(o: Offset, p: Offset)
    requires o.Valid() && p.Valid()
    ensures KeepsOrder(o, p) <==> o.Minutes() <= p.Minutes()
  {
    if o.Minutes() <= p.Minutes() {
      forall t: Timestamp, u: Timestamp |
        t.Valid() && u.Valid() && t.offset == o && u.offset == p && t.Instant() <= u.Instant()
        ensures ParsedInOrder(t, u)
      {
        ParsedKeepsOrder(t, u);
      }
    } else {
      NoonIsSwapped(o, p);
      InOrderIff(Noon(1, o), Noon(0, p));
    }
  }

  /** So many seconds past noon on a day in July. */
  function Noon(second: nat, offset: Offset): Timestamp { Timestamp(Date(2026, 7, 8), 'T', 12, 0, second, "", offset) }

  lemma NoonIsSwapped(o: Offset, p: Offset)
    requires o.Valid() && p.Valid() && o.Minutes() > p.Minutes()
    ensures var t, u := Noon(1, o), Noon(0, p);
      t.Valid() && u.Valid() && t.Instant() < u.Instant() && t.LocalNanos() > u.LocalNanos()
  {
    WholeInstant(Noon(1, o));
    WholeInstant(Noon(0, p));
  }

  lemma WholeInstant(t: Timestamp)
    requires t.Valid() && t.fraction == ""
    ensures t.Instant() == ((t.LocalSeconds() - t.offset.Minutes() * 60) * NANOS) as real
    ensures t.LocalNanos() == t.LocalSeconds() * NANOS
  {
    assert Share(0.0, NANOS) == 0.0;
  }

  /** Half past five in India is an hour before one o'clock in Greenwich, and parsed as later. */
  lemma OrderIsSwapped()
    ensures var t := Timestamp(Date(2026, 7, 8), 'T', 17, 30, 0, "", Numeric(true, 5, 30));
      var u := Timestamp(Date(2026, 7, 8), 'T', 13, 0, 0, "", Zulu('Z'));
      t.Valid() && u.Valid() && t.Instant() < u.Instant() && !ParsedInOrder(t, u)
  {
    var t := Timestamp(Date(2026, 7, 8), 'T', 17, 30, 0, "", Numeric(true, 5, 30));
    var u := Timestamp(Date(2026, 7, 8), 'T', 13, 0, 0, "", Zulu('Z'));
    WholeInstant(t);
    WholeInstant(u);
    InOrderIff(t, u);
  }

  /** With at most nine fraction digits nothing is rounded away. */
  lemma ShortFractionsAreExact(t: Timestamp)
    requires t.Valid() && t.offset.Minutes() == 0 && |t.fraction| <= 9
    ensures Parsed(t.Text()).Some? && Parsed(t.Text()).value as real == t.Instant()
  {
    ParsedIsLocal(t);
    LeadingIsExact(t.fraction, 9);
    NanosIsPow10();
  }

  lemma {:induction false} LeadingIsExact(ds: string, n: nat)
    requires AllDigits(ds) && |ds| <= n
    ensures Leading(ds, n) as real == Share(Fraction(ds), Pow10(n))
    decreases n
  {
    if ds != [] {
      LeadingIsExact(ds[1..], n - 1);
      ShareOfDigit(DigitValue(ds[0]), Fraction(ds[1..]), Pow10(n - 1));
    }
  }
}
