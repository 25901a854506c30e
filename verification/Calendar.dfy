/** The proleptic Gregorian calendar: dates and day numbers. */
module Calendar {
  predicate Leap(y: nat) { y % 4 == 0 && (y % 100 != 0 || y % 400 == 0) }

  function DaysInMonth(y: nat, m: nat): (n: nat)
    requires 1 <= m <= 12
    ensures 28 <= n <= 31
  {
    if m == 2 then (if Leap(y) then 29 else 28)
    else if m in {4, 6, 9, 11} then 30 else 31
  }

  function DaysBeforeYear(y: nat): nat {
    if y == 0 then 0 else DaysBeforeYear(y - 1) + if Leap(y - 1) then 366 else 365
  }

  function DaysBeforeMonth(y: nat, m: nat): nat
    requires 1 <= m <= 13
  {
    if m == 1 then 0 else DaysBeforeMonth(y, m - 1) + DaysInMonth(y, m - 1)
  }

  datatype Date = Date(year: nat, month: nat, day: nat) {
    predicate Valid() {
      1 <= month <= 12 && 1 <= day <= DaysInMonth(year, month)
    }

    /** Days since 0000-01-01. */
    function Number(): nat
      requires Valid()
    {
      DaysBeforeYear(year) + DaysBeforeMonth(year, month) + day - 1
    }

    predicate Before(other: Date) {
      year < other.year ||
      (year == other.year && (month < other.month || (month == other.month && day < other.day)))
    }
  }

  function FindYear(n: nat, y: nat): (r: nat)
    requires DaysBeforeYear(y) <= n
    ensures DaysBeforeYear(r) <= n < DaysBeforeYear(r + 1)
    decreases n - DaysBeforeYear(y)
  {
    if n < DaysBeforeYear(y + 1) then y else FindYear(n, y + 1)
  }

  function FindMonth(y: nat, k: nat, m: nat): (r: nat)
    requires 1 <= m <= 12 && DaysBeforeMonth(y, m) <= k < DaysBeforeMonth(y, 13)
    ensures 1 <= r <= 12 && DaysBeforeMonth(y, r) <= k < DaysBeforeMonth(y, r) + DaysInMonth(y, r)
    decreases 12 - m
  {
    if k < DaysBeforeMonth(y, m + 1) then m else FindMonth(y, k, m + 1)
  }

  lemma YearLength(y: nat)
    ensures DaysBeforeYear(y + 1) == DaysBeforeYear(y) + DaysBeforeMonth(y, 13)
  {
    assert DaysBeforeMonth(y, 2) == 31;
    assert DaysBeforeMonth(y, 3) == 31 + DaysInMonth(y, 2);
    assert DaysBeforeMonth(y, 5) == DaysBeforeMonth(y, 3) + 61;
    assert DaysBeforeMonth(y, 7) == DaysBeforeMonth(y, 5) + 61;
    assert DaysBeforeMonth(y, 9) == DaysBeforeMonth(y, 7) + 62;
    assert DaysBeforeMonth(y, 11) == DaysBeforeMonth(y, 9) + 61;
    assert DaysBeforeMonth(y, 13) == DaysBeforeMonth(y, 11) + 61;
  }

  /** The days before each month, in a year that is not a leap year, and before the next year. */
  const MONTH_STARTS: seq<nat> := [0, 31, 59, 90, 120, 151, 181, 212, 243, 273, 304, 334, 365]

  lemma EarlyMonthStarts(y: nat)
    ensures var x := if y % 4 == 0 && (y % 100 != 0 || y % 400 == 0) then 1 else 0;
      && DaysBeforeMonth(y, 1) == 0 && DaysBeforeMonth(y, 2) == 31 && DaysBeforeMonth(y, 3) == 59 + x
      && DaysBeforeMonth(y, 4) == 90 + x && DaysBeforeMonth(y, 5) == 120 + x && DaysBeforeMonth(y, 6) == 151 + x
  {
    assert DaysBeforeMonth(y, 2) == DaysBeforeMonth(y, 1) + DaysInMonth(y, 1);
    assert DaysBeforeMonth(y, 3) == DaysBeforeMonth(y, 2) + DaysInMonth(y, 2);
    assert DaysBeforeMonth(y, 4) == DaysBeforeMonth(y, 3) + DaysInMonth(y, 3);
    assert DaysBeforeMonth(y, 5) == DaysBeforeMonth(y, 4) + DaysInMonth(y, 4);
    assert DaysBeforeMonth(y, 6) == DaysBeforeMonth(y, 5) + DaysInMonth(y, 5);
  }

  lemma LateMonthStarts(y: nat, six: nat)
    requires DaysBeforeMonth(y, 6) == six
    ensures DaysBeforeMonth(y, 7) == six + 30 && DaysBeforeMonth(y, 8) == six + 61
    ensures DaysBeforeMonth(y, 9) == six + 92 && DaysBeforeMonth(y, 10) == six + 122
    ensures DaysBeforeMonth(y, 11) == six + 153 && DaysBeforeMonth(y, 12) == six + 183 && DaysBeforeMonth(y, 13) == six + 214
  {
    assert DaysBeforeMonth(y, 7) == DaysBeforeMonth(y, 6) + DaysInMonth(y, 6);
    assert DaysBeforeMonth(y, 8) == DaysBeforeMonth(y, 7) + DaysInMonth(y, 7);
    assert DaysBeforeMonth(y, 9) == DaysBeforeMonth(y, 8) + DaysInMonth(y, 8);
    assert DaysBeforeMonth(y, 10) == DaysBeforeMonth(y, 9) + DaysInMonth(y, 9);
    assert DaysBeforeMonth(y, 11) == DaysBeforeMonth(y, 10) + DaysInMonth(y, 10);
    assert DaysBeforeMonth(y, 12) == DaysBeforeMonth(y, 11) + DaysInMonth(y, 11);
    assert DaysBeforeMonth(y, 13) == DaysBeforeMonth(y, 12) + DaysInMonth(y, 12);
  }

  /** The months begin where the table says, one day later from March on in a leap year. */
  lemma MonthStarts(y: nat, m: nat)
    requires 1 <= m <= 13
    ensures DaysBeforeMonth(y, m) == MONTH_STARTS[m - 1] +
      if m > 2 && y % 4 == 0 && (y % 100 != 0 || y % 400 == 0) then 1 else 0
  {
    EarlyMonthStarts(y);
    LateMonthStarts(y, DaysBeforeMonth(y, 6));
  }

  function DateOf(n: nat): (d: Date)
    ensures d.Valid() && d.Number() == n
  {
    var y := FindYear(n, 0);
    YearLength(y);
    var k := n - DaysBeforeYear(y);
    var m := FindMonth(y, k, 1);
    Date(y, m, k - DaysBeforeMonth(y, m) + 1)
  }

  lemma {:induction false} MonthsAscend(y: nat, m: nat, k: nat)
    requires 1 <= m < k <= 13
    ensures DaysBeforeMonth(y, m) + DaysInMonth(y, m) <= DaysBeforeMonth(y, k)
    decreases k
  {
    if m + 1 < k { MonthsAscend(y, m, k - 1); }
  }

  lemma {:induction false} YearsAscend(y: nat, z: nat)
    requires y < z
    ensures DaysBeforeYear(y + 1) <= DaysBeforeYear(z)
    decreases z
  {
    if y + 1 < z { YearsAscend(y, z - 1); }
  }

  lemma MonthsEndByYear(d: Date)
    requires d.Valid()
    ensures DaysBeforeMonth(d.year, d.month) + d.day <= DaysBeforeMonth(d.year, 13)
  {
    MonthsAscend(d.year, d.month, 13);
  }

  lemma EarlierDateSmallerNumber(d: Date, e: Date)
    requires d.Valid() && e.Valid() && d.Before(e)
    ensures d.Number() < e.Number()
  {
    if d.year < e.year {
      YearLength(d.year);
      MonthsEndByYear(d);
      YearsAscend(d.year, e.year);
    } else if d.month < e.month {
      MonthsAscend(d.year, d.month, e.month);
    }
  }

  /** Calendar order is the order of day numbers, so the two directions of the calendar agree. */
  lemma DateOrder(d: Date, e: Date)
    requires d.Valid() && e.Valid()
    ensures d.Before(e) <==> d.Number() < e.Number()
    ensures d == e <==> d.Number() == e.Number()
  {
    if d.Before(e) {
      EarlierDateSmallerNumber(d, e);
    } else if e.Before(d) {
      EarlierDateSmallerNumber(e, d);
    }
  }

  /** The days of the years 0 to 9999. */
  const FOUR_DIGIT_DAYS: nat := 3_652_425

  /** The multiples of d before y. */
  function Multiples(y: nat, d: nat): int
    requires d > 0
  {
    if y == 0 then 0 else Multiples(y - 1, d) + if (y - 1) % d == 0 then 1 else 0
  }

  lemma NextMultiple(y: nat, d: nat)
    requires d == 4 || d == 100 || d == 400
    ensures (y + d) / d == (y + (d - 1)) / d + if y % d == 0 then 1 else 0
  {
  }

  lemma {:induction false} MultiplesIs(y: nat, d: nat)
    requires d == 4 || d == 100 || d == 400
    ensures Multiples(y, d) == (y + (d - 1)) / d
  {
    if y > 0 {
      MultiplesIs(y - 1, d);
      NextMultiple(y - 1, d);
    }
  }

  function LeapYears(y: nat): int { Multiples(y, 4) - Multiples(y, 100) + Multiples(y, 400) }

  lemma MultiplesNest(y: nat)
    ensures y % 100 == 0 ==> y % 4 == 0
    ensures y % 400 == 0 ==> y % 100 == 0
  {
    if y % 100 == 0 { assert y == 4 * (25 * (y / 100)); }
    if y % 400 == 0 { assert y == 100 * (4 * (y / 400)); }
  }

  lemma LeapYearsStep(y: nat)
    ensures LeapYears(y + 1) == LeapYears(y) + if Leap(y) then 1 else 0
  {
    MultiplesNest(y);
  }

  lemma {:induction false} YearStart(y: nat)
    ensures DaysBeforeYear(y) == 365 * y + LeapYears(y)
  {
    if y > 0 {
      YearStart(y - 1);
      LeapYearsStep(y - 1);
    }
  }

  /** The number of a day, computed from its date alone. */
  lemma DayNumber(d: Date)
    requires d.Valid()
    ensures var y := d.year;
      d.Number() == 365 * y + (y + 3) / 4 - (y + 99) / 100 + (y + 399) / 400 + MONTH_STARTS[d.month - 1] + d.day - 1
        + if d.month > 2 && y % 4 == 0 && (y % 100 != 0 || y % 400 == 0) then 1 else 0
  {
    YearStart(d.year);
    MultiplesIs(d.year, 4);
    MultiplesIs(d.year, 100);
    MultiplesIs(d.year, 400);
    MonthStarts(d.year, d.month);
  }

  lemma YearBounds(n: nat)
    ensures var y := DateOf(n).year; DaysBeforeYear(y) <= n < DaysBeforeYear(y + 1)
  {
    var d := DateOf(n);
    MonthsEndByYear(d);
    YearLength(d.year);
  }

  lemma YearBelow(n: nat, z: nat)
    ensures DateOf(n).year < z <==> n < DaysBeforeYear(z)
  {
    var y := DateOf(n).year;
    YearBounds(n);
    if y < z { YearsAscend(y, z); } else if z < y { YearsAscend(z, y); }
    if z < y { YearsAscend(z, z + 1); }
  }

  lemma TenThousandYears(z: nat)
    requires z == 10000
    ensures LeapYears(z) == 2425
  {
    MultiplesIs(z, 4);
    MultiplesIs(z, 100);
    MultiplesIs(z, 400);
  }

  lemma YearBelowTenThousand(n: nat, z: nat)
    requires z == 10000
    ensures DateOf(n).year < z <==> n < FOUR_DIGIT_DAYS
  {
    YearBelow(n, z);
    YearStart(z);
    TenThousandYears(z);
  }

  /** The four-digit year shows exactly the first FOUR_DIGIT_DAYS days. */
  lemma FourDigitYears(n: nat)
    ensures DateOf(n).year < 10000 <==> n < FOUR_DIGIT_DAYS
  {
    YearBelowTenThousand(n, 10000);
  }

  // ----- years before 0 -----

  /** The days of 400 years, after which the calendar repeats. */
  const CYCLE: nat := 146_097

  datatype CivilDate = CivilDate(year: int, month: nat, day: nat)

  function Earlier(d: Date, cycles: nat): CivilDate {
    CivilDate(d.year - 400 * cycles, d.month, d.day)
  }

  /** The fewest cycles that bring a day number to 0 or above. */
  function CyclesBefore(n: int): nat { if n >= 0 then 0 else (CYCLE - 1 - n) / CYCLE }

  /** The date of any day, also before 0000-01-01. */
  function CivilOf(n: int): CivilDate {
    if n >= 0 then Earlier(DateOf(n), 0)
    else Earlier(DateOf(n + CYCLE * CyclesBefore(n)), CyclesBefore(n))
  }

  lemma CycleDays(z: nat)
    requires z == 400
    ensures DaysBeforeYear(z) == CYCLE
  {
    YearStart(z);
    MultiplesIs(z, 4);
    MultiplesIs(z, 100);
    MultiplesIs(z, 400);
  }

  lemma RemainderBy4(y: nat)
    ensures (y + 400) % 4 == y % 4
  {
    assert y + 400 == 4 * (y / 4 + 100) + y % 4;
  }

  lemma RemainderBy100(y: nat)
    ensures (y + 400) % 100 == y % 100
  {
    assert y + 400 == 100 * (y / 100 + 4) + y % 100;
  }

  lemma LeapRepeats(y: nat, z: nat)
    requires z == 400
    ensures Leap(y + z) == Leap(y)
  {
    RemainderBy4(y);
    RemainderBy100(y);
    assert y + 400 == 400 * (y / 400 + 1) + y % 400;
  }

  lemma {:induction false} YearsRepeat(y: nat, z: nat)
    requires z == 400
    ensures DaysBeforeYear(y + z) == DaysBeforeYear(y) + CYCLE
  {
    if y == 0 {
      CycleDays(z);
    } else {
      YearsRepeat(y - 1, z);
      LeapRepeats(y - 1, z);
    }
  }

  lemma MonthRepeats(y: nat, z: nat, m: nat)
    requires z == 400 && 1 <= m <= 12
    ensures DaysInMonth(y + z, m) == DaysInMonth(y, m)
  {
    LeapRepeats(y, z);
  }

  lemma {:induction false} MonthsRepeat(y: nat, z: nat, m: nat)
    requires z == 400 && 1 <= m <= 13
    ensures DaysBeforeMonth(y + z, m) == DaysBeforeMonth(y, m)
    decreases m
  {
    if m > 1 {
      MonthsRepeat(y, z, m - 1);
      MonthRepeats(y, z, m - 1);
    }
  }

  lemma OneDate(d: Date, n: nat)
    requires d.Valid() && d.Number() == n
    ensures DateOf(n) == d
  {
    DateOrder(DateOf(n), d);
  }

  lemma NumbersRepeat(d: Date, z: nat)
    requires z == 400 && d.Valid()
    ensures var e := Date(d.year + z, d.month, d.day); e.Valid() && e.Number() == d.Number() + CYCLE
  {
    MonthRepeats(d.year, z, d.month);
    YearsRepeat(d.year, z);
    MonthsRepeat(d.year, z, d.month);
  }

  lemma DatesRepeat(n: nat, z: nat)
    requires z == 400
    ensures var d := DateOf(n); DateOf(n + CYCLE) == Date(d.year + z, d.month, d.day)
  {
    var d := DateOf(n);
    NumbersRepeat(d, z);
    OneDate(Date(d.year + z, d.month, d.day), n + CYCLE);
  }

  lemma CyclesStep(n: int)
    requires n < 0
    ensures CyclesBefore(n) == CyclesBefore(n + CYCLE) + 1
    ensures 0 <= n + CYCLE * CyclesBefore(n) < CYCLE
  {
  }

  lemma EarlierDatesRepeat(n: int)
    requires n < 0
    ensures var d := CivilOf(n); CivilOf(n + CYCLE) == CivilDate(d.year + 400, d.month, d.day)
  {
    CyclesStep(n);
    var k := CyclesBefore(n);
    assert n + CYCLE * k == (n + CYCLE) + CYCLE * (k - 1);
  }

  lemma LaterDatesRepeat(n: nat, z: nat)
    requires z == 400
    ensures var d := CivilOf(n); CivilOf(n + CYCLE) == CivilDate(d.year + z, d.month, d.day)
  {
    DatesRepeat(n, z);
  }

  /** The calendar repeats every 400 years over all days, so the choice of the cycle does not matter. */
  lemma CivilRepeats(n: int)
    ensures var d := CivilOf(n); CivilOf(n + CYCLE) == CivilDate(d.year + 400, d.month, d.day)
  {
    if n >= 0 { LaterDatesRepeat(n, 400); } else { EarlierDatesRepeat(n); }
  }

  lemma YearInCycle(n: nat, z: nat)
    requires z == 400 && n < CYCLE
    ensures DateOf(n).year < z
  {
    YearBelow(n, z);
    CycleDays(z);
  }

  /** The years 0 to 9999 are exactly the first FOUR_DIGIT_DAYS days; earlier days have a negative year. */
  lemma CivilYears(n: int)
    ensures 0 <= CivilOf(n).year < 10000 <==> 0 <= n < FOUR_DIGIT_DAYS
    ensures CivilOf(n).year < 0 <==> n < 0
  {
    if n >= 0 {
      FourDigitYears(n);
    } else {
      CyclesStep(n);
      YearInCycle(n + CYCLE * CyclesBefore(n), 400);
    }
  }

}
