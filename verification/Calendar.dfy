/** Days since 1970-01-01 for proleptic Gregorian dates. */
module Calendar {

  /** 32-bit unsigned arithmetic. */
  function Wrap32(x: int): nat { x % 0x1_0000_0000 }

  /** Integer division as C++ does it: towards zero. */
  function TruncDiv(a: int, b: int): int
    requires b > 0
  {
    if a >= 0 then a / b else -((-a) / b)
  }

  /** days_from_civil, with its unsigned month arithmetic. */
  function DaysFromCivil(year: int, m: nat, d: nat): int {
    var y := if m <= 2 then year - 1 else year;
    var era := TruncDiv(if y >= 0 then y else y - 399, 400);
    var yoe := Wrap32(y - era * 400);
    var mp := Wrap32(m + (if m > 2 then Wrap32(-3) else 9));
    var doy := Wrap32(Wrap32(153 * mp + 2) / 5 + d - 1);
    var doe := Wrap32(yoe * 365 + yoe / 4 - yoe / 100 + doy);
    era * 146097 + doe - 719468
  }

  // ----- The calendar itself -----

  datatype Date = Date(y: int, m: nat, d: nat) {
    predicate Valid() { 1 <= m <= 12 && 1 <= d <= DaysInMonth(y, m) }

    function Next(): Date
      requires Valid()
    {
      if d < DaysInMonth(y, m) then Date(y, m, d + 1)
      else if m < 12 then Date(y, m + 1, 1)
      else Date(y + 1, 1, 1)
    }

    predicate Before(other: Date) {
      y < other.y || (y == other.y && (m < other.m || (m == other.m && d < other.d)))
    }

    function Days(): int { DaysFromCivil(y, m, d) }
  }

  predicate IsLeap(y: int) { y % 4 == 0 && (y % 100 != 0 || y % 400 == 0) }

  function DaysInMonth(y: int, m: nat): nat {
    if m == 2 then (if IsLeap(y) then 29 else 28)
    else if m == 4 || m == 6 || m == 9 || m == 11 then 30
    else 31
  }

  // ----- What the formula computes -----

  /** The day number of 1 March of year `y`: 365 a year and one more every leap year. */
  function MarchFirst(y: int): int { 365 * y + y / 4 - y / 100 + y / 400 - 719468 }

  /** The year that started on the last 1 March. */
  function MarchYear(date: Date): int { if date.m <= 2 then date.y - 1 else date.y }

  /** Days from that 1 March to the first of the month. */
  function MonthOffset(m: nat): nat { (153 * (if m > 2 then m - 3 else m + 9) + 2) / 5 }

  lemma EraIsFloor(y: int)
    ensures TruncDiv(if y >= 0 then y else y - 399, 400) == y / 400
  {
  }

  lemma YearOfEra(y: int)
    ensures var era, yoe := y / 400, y % 400;
      era * 146097 + (yoe * 365 + yoe / 4 - yoe / 100) == 365 * y + y / 4 - y / 100 + y / 400
  {
    var era, yoe := y / 400, y % 400;
    assert y == era * 400 + yoe;
    assert y / 4 == era * 100 + yoe / 4 && y / 100 == era * 4 + yoe / 100;
  }

  lemma MonthOffsetBounds(m: nat)
    requires 1 <= m <= 12
    ensures MonthOffset(m) <= 337
  {
  }

  lemma Small32(x: int)
    requires 0 <= x < 0x1_0000_0000
    ensures Wrap32(x) == x
  {
  }

  lemma ShiftedMonth(m: nat)
    requires 1 <= m <= 12
    ensures Wrap32(m + (if m > 2 then Wrap32(-3) else 9)) == if m > 2 then m - 3 else m + 9
  {
    assert Wrap32(-3) == 0xffff_fffd;
  }

  lemma DayOfYear(m: nat, d: nat)
    requires 1 <= m <= 12 && 1 <= d <= 31
    ensures var mp := Wrap32(m + (if m > 2 then Wrap32(-3) else 9));
      Wrap32(Wrap32(153 * mp + 2) / 5 + d - 1) == MonthOffset(m) + d - 1 <= 367
  {
    ShiftedMonth(m);
    MonthOffsetBounds(m);
    Small32(153 * (if m > 2 then m - 3 else m + 9) + 2);
    Small32(MonthOffset(m) + d - 1);
  }

  /** Nothing wraps around in the day of the era. */
  lemma DayOfEra(y: int, doy: nat)
    requires doy <= 367
    ensures var yoe := Wrap32(y - y / 400 * 400);
      yoe == y % 400 && Wrap32(yoe * 365 + yoe / 4 - yoe / 100 + doy) == yoe * 365 + yoe / 4 - yoe / 100 + doy
  {
    var yoe := y % 400;
    assert y - y / 400 * 400 == yoe;
    Small32(yoe);
    Small32(yoe * 365 + yoe / 4 - yoe / 100 + doy);
  }

  /** The formula counts days from the last 1 March. */
  lemma DaysMeaning(date: Date)
    requires date.Valid()
    ensures date.Days() == MarchFirst(MarchYear(date)) + MonthOffset(date.m) + date.d - 1
  {
    var y := MarchYear(date);
    EraIsFloor(y);
    YearOfEra(y);
    DayOfYear(date.m, date.d);
    DayOfEra(y, MonthOffset(date.m) + date.d - 1);
  }

  /** How many days the year from 1 March `y` has. */
  lemma MarchYearLength(y: int)
    ensures MarchFirst(y + 1) - MarchFirst(y) == if IsLeap(y + 1) then 366 else 365
  {
    Quotients(y, 4);
    Quotients(y, 100);
    Quotients(y, 400);
    Centuries(y + 1);
  }

  lemma Centuries(y: int)
    ensures y % 100 == 0 ==> y % 4 == 0
    ensures y % 400 == 0 ==> y % 100 == 0
  {
  }

  lemma Quotients(y: int, n: int)
    requires n == 4 || n == 100 || n == 400
    ensures (y + 1) / n - y / n == if (y + 1) % n == 0 then 1 else 0
  {
  }

  /** A valid date lies before the next 1 March. */
  lemma WithinMarchYear(date: Date)
    requires date.Valid()
    ensures 0 <= MonthOffset(date.m) + date.d - 1 < MarchFirst(MarchYear(date) + 1) - MarchFirst(MarchYear(date))
  {
    MarchYearLength(MarchYear(date));
    MonthOffsetBounds(date.m);
    LateMonths(date);
  }

  lemma LateMonths(date: Date)
    requires date.Valid()
    ensures MonthOffset(date.m) + date.d - 1 <= if date.m == 2 then 336 + date.d else 336
  {
    var m := date.m;
    if m <= 3 { } else if m <= 6 { } else if m <= 9 { } else { }
  }

  lemma {:induction false} MarchFirstMonotone(y: int, y': int)
    requires y <= y'
    ensures MarchFirst(y) <= MarchFirst(y')
    decreases y' - y
  {
    if y < y' {
      MarchFirstMonotone(y, y' - 1);
      MarchYearLength(y' - 1);
    }
  }

  /** The day number goes up by exactly one from each valid day to the next, in all years. */
  lemma NextDayIsOneMore(date: Date)
    requires date.Valid()
    ensures date.Next().Valid() && date.Next().Days() == date.Days() + 1
  {
    DaysMeaning(date);
    assert date.Next().Valid();
    DaysMeaning(date.Next());
    if date.d == DaysInMonth(date.y, date.m) {
      LastOfMonth(date);
    }
  }

  lemma LastOfMonth(date: Date)
    requires date.Valid() && date.d == DaysInMonth(date.y, date.m)
    ensures var next := date.Next();
      MarchFirst(MarchYear(next)) + MonthOffset(next.m) == MarchFirst(MarchYear(date)) + MonthOffset(date.m) + date.d
  {
    if date.m == 2 {
      MarchYearLength(date.y - 1);
    } else {
      MonthEnds(date.m);
    }
  }

  lemma MonthEnds(m: nat)
    requires 1 <= m <= 12 && m != 2
    ensures forall y :: MonthOffset(m) + DaysInMonth(y, m) == MonthOffset(if m < 12 then m + 1 else 1)
  {
    if m <= 3 { } else if m <= 6 { } else if m <= 9 { } else { }
  }

  /** Later dates have larger day numbers, and only they do. */
  lemma DaysKeepOrder(a: Date, b: Date)
    requires a.Valid() && b.Valid()
    ensures a.Before(b) <==> a.Days() < b.Days()
    ensures a == b <==> a.Days() == b.Days()
  {
    EarlierIsLess(a, b);
    EarlierIsLess(b, a);
    assert a.Before(b) || b.Before(a) || a == b;
  }

  lemma EpochIsZero()
    ensures Date(1970, 1, 1).Days() == 0
  {
    DaysMeaning(Date(1970, 1, 1));
  }

  lemma EarlierIsLess(a: Date, b: Date)
    requires a.Valid() && b.Valid()
    ensures a.Before(b) ==> a.Days() < b.Days()
  {
    if a.Before(b) {
      DaysMeaning(a);
      DaysMeaning(b);
      if MarchYear(a) == MarchYear(b) {
        SameMarchYear(a, b);
      } else {
        WithinMarchYear(a);
        WithinMarchYear(b);
        MarchFirstMonotone(MarchYear(a) + 1, MarchYear(b));
      }
    }
  }

  lemma SameMarchYear(a: Date, b: Date)
    requires a.Valid() && b.Valid() && a.Before(b) && MarchYear(a) == MarchYear(b)
    ensures MonthOffset(a.m) + a.d < MonthOffset(b.m) + b.d
  {
    if a.m != b.m {
      var ma, mb := if a.m > 2 then a.m - 3 else a.m + 9, if b.m > 2 then b.m - 3 else b.m + 9;
      assert ma < mb;
      assert a.m != 2;
      MonthEnds(a.m);
      OffsetsAscend(a.m, b.m);
    }
  }

  lemma OffsetsAscend(m: nat, m': nat)
    requires 1 <= m <= 12 && 1 <= m' <= 12
    requires (if m > 2 then m - 3 else m + 9) < (if m' > 2 then m' - 3 else m' + 9)
    ensures MonthOffset(if m < 12 then m + 1 else 1) <= MonthOffset(m')
  {
  }
}
