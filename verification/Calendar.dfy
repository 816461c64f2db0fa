/** The proleptic Gregorian calendar by counting days, and the Date object's view of it. */
module Calendar {

  // -- The calendar ---------------------------------------------------------------------------

  datatype Date = Date(year: nat, month: nat, day: nat)

  predicate Leap(year: nat) {
    year % 4 == 0 && (year % 100 != 0 || year % 400 == 0)
  }

  function YearLength(year: nat): nat {
    if Leap(year) then 366 else 365
  }

  function MonthLength(year: nat, month: nat): nat {
    if month == 2 then (if Leap(year) then 29 else 28)
    else if month == 4 || month == 6 || month == 9 || month == 11 then 30
    else 31
  }

  predicate Real(d: Date) {
    1 <= d.month <= 12 && 1 <= d.day <= MonthLength(d.year, d.month)
  }

  function DaysBeforeYear(year: nat): (n: nat)
    ensures n >= 365 * year
  {
    if year == 0 then 0 else DaysBeforeYear(year - 1) + YearLength(year - 1)
  }

  function DaysBeforeMonth(year: nat, month: nat): nat {
    if month <= 1 then 0 else DaysBeforeMonth(year, month - 1) + MonthLength(year, month - 1)
  }

  /** Days since 0000-01-01. */
  function DayNumber(d: Date): nat
    requires d.day >= 1
  {
    DaysBeforeYear(d.year) + DaysBeforeMonth(d.year, d.month) + d.day - 1
  }

  function NextDate(d: Date): (next: Date)
    requires Real(d)
    ensures Real(next)
  {
    if d.day < MonthLength(d.year, d.month) then Date(d.year, d.month, d.day + 1)
    else if d.month < 12 then Date(d.year, d.month + 1, 1)
    else Date(d.year + 1, 1, 1)
  }

  lemma {:induction false} MonthsFillYear(year: nat)
    ensures DaysBeforeMonth(year, 12) + 31 == YearLength(year)
  {
    var b := m => DaysBeforeMonth(year, m);
    assert b(1) == 0;
    assert b(2) == 31 && b(3) == 31 + MonthLength(year, 2);
    assert b(4) == b(3) + 31 && b(5) == b(4) + 30 && b(6) == b(5) + 31 && b(7) == b(6) + 30;
    assert b(8) == b(7) + 31 && b(9) == b(8) + 31 && b(10) == b(9) + 30 && b(11) == b(10) + 31;
    assert b(12) == b(11) + 30;
  }

  lemma {:induction false} NextDateIsNextDay(d: Date)
    requires Real(d)
    ensures DayNumber(NextDate(d)) == DayNumber(d) + 1
  {
    if d.day == MonthLength(d.year, d.month) {
      if d.month < 12 {
        assert DaysBeforeMonth(d.year, d.month + 1) == DaysBeforeMonth(d.year, d.month) + d.day;
      } else {
        MonthsFillYear(d.year);
        assert DaysBeforeYear(d.year + 1) == DaysBeforeYear(d.year) + YearLength(d.year);
      }
    }
  }

  lemma {:induction false} MonthsGrow(year: nat, a: nat, b: nat)
    requires 1 <= a < b <= 13
    ensures DaysBeforeMonth(year, a) + MonthLength(year, a) <= DaysBeforeMonth(year, b)
    decreases b
  {
    if a + 1 < b {
      MonthsGrow(year, a, b - 1);
    }
  }

  lemma {:induction false} YearsGrow(a: nat, b: nat)
    requires a < b
    ensures DaysBeforeYear(a) + YearLength(a) <= DaysBeforeYear(b)
    decreases b
  {
    if a + 1 < b {
      YearsGrow(a, b - 1);
    }
  }

  lemma {:induction false} DateIsInYear(d: Date)
    requires Real(d)
    ensures DaysBeforeYear(d.year) <= DayNumber(d) < DaysBeforeYear(d.year) + YearLength(d.year)
  {
    MonthsFillYear(d.year);
    if d.month < 12 {
      MonthsGrow(d.year, d.month, 12);
    }
  }

  /** The counted years agree with the usual formula: one leap day every 4 years, but for the
      centuries that 400 does not divide. */
  lemma {:induction false} YearsAsFormula(year: nat)
    ensures DaysBeforeYear(year) == 365 * year + (year + 3) / 4 - (year + 99) / 100 + (year + 399) / 400
    decreases year
  {
    if year > 0 {
      YearsAsFormula(year - 1);
      StepOf4(year - 1);
      StepOf100(year - 1);
      StepOf400(year - 1);
      CenturiesNest(year - 1);
    }
  }

  lemma {:induction false} StepOf4(y: nat)
    ensures (y + 4) / 4 - (y + 3) / 4 == if y % 4 == 0 then 1 else 0
  {}

  lemma {:induction false} StepOf100(y: nat)
    ensures (y + 100) / 100 - (y + 99) / 100 == if y % 100 == 0 then 1 else 0
  {}

  lemma {:induction false} StepOf400(y: nat)
    ensures (y + 400) / 400 - (y + 399) / 400 == if y % 400 == 0 then 1 else 0
  {}

  lemma {:induction false} CenturiesNest(y: nat)
    ensures y % 400 == 0 ==> y % 100 == 0
    ensures y % 100 == 0 ==> y % 4 == 0
  {
    if y % 400 == 0 {
      var k := y / 400;
      assert y == 100 * (4 * k);
    }
    if y % 100 == 0 {
      var k := y / 100;
      assert y == 4 * (25 * k);
    }
  }

  predicate Before(a: Date, b: Date) {
    || a.year < b.year
    || (a.year == b.year && a.month < b.month)
    || (a.year == b.year && a.month == b.month && a.day < b.day)
  }

  lemma {:induction false} BeforeCountsDays(a: Date, b: Date)
    requires Real(a) && Real(b) && Before(a, b)
    ensures DayNumber(a) < DayNumber(b)
  {
    DateIsInYear(a);
    DateIsInYear(b);
    if a.year < b.year {
      YearsGrow(a.year, b.year);
    } else if a.month < b.month {
      MonthsGrow(a.year, a.month, b.month);
    }
  }

  // -- The Date object ------------------------------------------------------------------------------

  function DaysAfter(d: Date, n: nat): (r: Date)
    requires Real(d)
    ensures Real(r)
    decreases n
  {
    if n == 0 then d else DaysAfter(NextDate(d), n - 1)
  }

  const EPOCH := Date(0, 1, 1)

  /** The UTC year, month and day of a day number. */
  function Civil(n: nat): (d: Date)
    ensures Real(d)
  {
    DaysAfter(EPOCH, n)
  }

  lemma {:induction false} DaysAfterCounts(d: Date, n: nat)
    requires Real(d)
    ensures DayNumber(DaysAfter(d, n)) == DayNumber(d) + n
    decreases n
  {
    if n > 0 {
      NextDateIsNextDay(d);
      DaysAfterCounts(NextDate(d), n - 1);
    }
  }

  lemma {:induction false} CivilNumber(n: nat)
    ensures DayNumber(Civil(n)) == n
  {
    DaysAfterCounts(EPOCH, n);
  }

  lemma {:induction false} BeforeIffFewerDays(a: Date, b: Date)
    requires Real(a) && Real(b)
    ensures Before(a, b) <==> DayNumber(a) < DayNumber(b)
    ensures a == b <==> DayNumber(a) == DayNumber(b)
  {
    if Before(a, b) {
      BeforeCountsDays(a, b);
    } else if Before(b, a) {
      BeforeCountsDays(b, a);
    }
  }

  lemma {:induction false} CivilOfNumber(n: nat, d: Date)
    requires Real(d) && DayNumber(d) == n
    ensures Civil(n) == d
  {
    CivilNumber(n);
    BeforeIffFewerDays(Civil(n), d);
  }

  /** `Date.UTC(year, month0, day)` as a day number: out-of-range months and days carry over, and the
      years 0 to 99 mean 1900 to 1999. */
  function DateUtc(year: nat, month0: int, day: int): nat
    requires -1 <= month0 && -1 <= day
  {
    var y := (if year <= 99 then 1900 + year else year) + month0 / 12;
    assert y >= 99;
    DaysBeforeYear(y) + DaysBeforeMonth(y, month0 % 12 + 1) + day - 1
  }

  /** How Date.UTC reads its arguments: two-digit years are of the twentieth century; days count from
      the first of the month on; months beyond December, or the one before January, are of the next or
      the previous years. */
  lemma {:induction false} DateUtcMeans(year: nat, month0: nat, day: int)
    requires -1 <= day
    ensures year <= 99 ==> DateUtc(year, month0, day) == DateUtc(1900 + year, month0, day)
    ensures year >= 100 && month0 < 12 ==> DateUtc(year, month0, day) == DayNumber(Date(year, month0 + 1, 1)) + day - 1
    ensures year >= 100 ==> DateUtc(year, month0 + 12, day) == DateUtc(year + 1, month0, day)
    ensures year >= 100 ==> DateUtc(year, -1, day) == DayNumber(Date(year - 1, 12, 1)) + day - 1
  {
    if year >= 100 {
      if month0 < 12 {
        FirstOfMonth(year, month0, day, Date(year, month0 + 1, 1), 0);
      }
      YearsCarry(year, month0, day);
      FirstOfMonth(year, -1, day, Date(year - 1, 12, 1), -1);
    }
  }

  lemma {:induction false} FirstOfMonth(year: nat, month0: int, day: int, first: Date, q: int)
    requires year >= 100 && -1 <= month0 && -1 <= day
    requires first.year == year + q && first.day == 1 && 1 <= first.month <= 12
    requires month0 == 12 * q + first.month - 1
    ensures DateUtc(year, month0, day) == DayNumber(first) + day - 1
  {
    MonthsCarry(year, month0, day, q, first.month - 1);
  }

  lemma {:induction false} YearsCarry(year: nat, month0: nat, day: int)
    requires year >= 100 && -1 <= day
    ensures DateUtc(year, month0 + 12, day) == DateUtc(year + 1, month0, day)
  {
    var q, r := month0 / 12, month0 % 12;
    MonthsCarry(year, month0 + 12, day, q + 1, r);
    MonthsCarry(year + 1, month0, day, q, r);
  }

  lemma {:induction false} MonthsCarry(year: nat, month0: int, day: int, q: int, r: nat)
    requires year > 99 && -1 <= month0 && -1 <= day && month0 == 12 * q + r && r < 12
    ensures year + q >= 0
    ensures DateUtc(year, month0, day) == DaysBeforeYear(year + q) + DaysBeforeMonth(year + q, r + 1) + day - 1
  {
    TwelveGoes(month0, q, r);
  }

  lemma {:induction false} TwelveGoes(n: int, q: int, r: nat)
    requires n == 12 * q + r && r < 12
    ensures n / 12 == q && n % 12 == r
  {}

  lemma {:induction false} DateUtcOfDate(d: Date, days: nat)
    requires Real(d) && d.year >= 100
    ensures DateUtc(d.year, d.month - 1, d.day + days) == DayNumber(d) + days
  {
    assert (d.month - 1) / 12 == 0 && (d.month - 1) % 12 == d.month - 1;
  }

  lemma {:induction false} LeapYearsAreFew(year: nat)
    ensures DaysBeforeYear(year) <= 366 * year
    decreases year
  {
    if year > 0 {
      LeapYearsAreFew(year - 1);
    }
  }

  lemma {:induction false} YearIsLate(n: nat)
    requires n >= 365 * 1000
    ensures Civil(n).year >= 100
  {
    var d := Civil(n);
    CivilNumber(n);
    DateIsInYear(d);
    if d.year < 100 {
      YearsGrow(d.year, 100);
      LeapYearsAreFew(100);
    }
  }

  /** Asking the Date object for the same year, month and day. */
  lemma {:induction false} DateUtcAgreesIff(d: Date)
    ensures Civil(DateUtc(d.year, d.month - 1, d.day)) == d <==> Real(d) && d.year >= 100
  {
    if d.year <= 99 {
      YearIsLate(DateUtc(d.year, d.month - 1, d.day));
    } else if Real(d) {
      DateUtcOfDate(d, 0);
      CivilOfNumber(DateUtc(d.year, d.month - 1, d.day), d);
    }
  }

  lemma {:induction false} YearOfNumber(n: nat, y: nat)
    requires DaysBeforeYear(y) <= n <= DaysBeforeYear(y) + YearLength(y) + 1
    ensures y <= Civil(n).year <= y + 1
  {
    var c := Civil(n);
    CivilNumber(n);
    DateIsInYear(c);
    if c.year < y {
      YearsGrow(c.year, y);
    } else if c.year > y + 1 {
      YearsGrow(y + 1, c.year);
    }
  }

  /** So many days later, as the Date object counts. */
  function Shift(d: Date, days: int): (r: Date)
    requires -1 <= days
    ensures Real(r)
  {
    Civil(DateUtc(d.year, d.month - 1, d.day + days))
  }

  lemma {:induction false} TomorrowIsNext(d: Date)
    requires Real(d) && d.year >= 100
    ensures Shift(d, 1) == NextDate(d)
  {
    DateUtcOfDate(d, 1);
    NextDateIsNextDay(d);
    CivilOfNumber(DayNumber(d) + 1, NextDate(d));
  }

  /** A year below 100 lands in the twentieth century. */
  lemma {:induction false} TomorrowIsModern(d: Date)
    requires Real(d) && d.year <= 99
    ensures 1900 <= Shift(d, 1).year <= 2000
  {
    var y := 1900 + d.year;
    assert (d.month - 1) / 12 == 0 && (d.month - 1) % 12 == d.month - 1;
    MonthsFillYear(y);
    if d.month < 12 {
      MonthsGrow(y, d.month, 12);
    }
    YearOfNumber(DateUtc(d.year, d.month - 1, d.day + 1), y);
  }

  lemma {:induction false} NothingBetween(a: Date, d: Date)
    requires Real(a) && Real(d)
    ensures Before(d, NextDate(a)) <==> !Before(a, d)
  {
    NextDateIsNextDay(a);
    BeforeIffFewerDays(d, NextDate(a));
    BeforeIffFewerDays(a, d);
  }
}
