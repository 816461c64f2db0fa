/** Calendar days as text: the YYYY-MM-DD check, the lexical comparison that stands in for a date
    comparison, and the day arithmetic behind an exclusive upper bound. */
module CalendarDays {
  import opened Calendar
  import opened Common
  import opened Digits

  // -- Text ------------------------------------------------------------------------------------------

  /** `^(\d{4})-(\d{2})-(\d{2})$` */
  predicate Shaped(s: string) {
    && |s| == 10 && s[4] == '-' && s[7] == '-'
    && Digit(s[0]) && Digit(s[1]) && Digit(s[2]) && Digit(s[3])
    && Digit(s[5]) && Digit(s[6]) && Digit(s[8]) && Digit(s[9])
  }

  function Parse(s: string): (d: Date)
    requires Shaped(s)
    ensures d.year <= 9999 && d.month <= 99 && d.day <= 99
  {
    Date(1000 * Value(s[0]) + 100 * Value(s[1]) + 10 * Value(s[2]) + Value(s[3]),
         10 * Value(s[5]) + Value(s[6]), 10 * Value(s[8]) + Value(s[9]))
  }

  function Two(n: nat): (s: string)
    requires n <= 99
  {
    [DigitOf(n / 10), DigitOf(n % 10)]
  }

  /** The day as YYYY-MM-DD. */
  function DayText(d: Date): (s: string)
    requires d.year <= 9999 && d.month <= 99 && d.day <= 99
    ensures Shaped(s) && Parse(s) == d
  {
    Two(d.year / 100) + Two(d.year % 100) + "-" + Two(d.month) + "-" + Two(d.day)
  }

  function FirstDifference(a: string, b: string): (i: nat)
    ensures i <= |a| && i <= |b| && a[..i] == b[..i]
    ensures i < |a| && i < |b| ==> a[i] != b[i]
  {
    if a == [] || b == [] || a[0] != b[0] then 0 else 1 + FirstDifference(a[1..], b[1..])
  }

  /** The comparison `a < b` on strings. */
  predicate Less(a: string, b: string) {
    var i := FirstDifference(a, b);
    i < |b| && (i < |a| ==> a[i] < b[i])
  }

  lemma {:induction false} LessIsBefore(a: string, b: string)
    requires Shaped(a) && Shaped(b)
    ensures Less(a, b) <==> Before(Parse(a), Parse(b))
  {
    var i := FirstDifference(a, b);
    forall j | 0 <= j < i ensures a[j] == b[j] {
      assert a[..i][j] == b[..i][j];
    }
  }

  /** `isCalendarDay`: the shape, and the Date object gives the same three numbers back. */
  predicate IsCalendarDay(s: string) {
    Shaped(s) &&
    var d := Parse(s);
    var t := Civil(DateUtc(d.year, d.month - 1, d.day));
    t.year == d.year && t.month - 1 == d.month - 1 && t.day == d.day
  }

  /** It accepts exactly the days of the calendar from the year 100 on. */
  lemma {:induction false} CalendarDayIff(s: string)
    ensures IsCalendarDay(s) <==> Shaped(s) && Real(Parse(s)) && Parse(s).year >= 100
  {
    if Shaped(s) {
      DateUtcAgreesIff(Parse(s));
    }
  }

  // -- Day arithmetic on text ------------------------------------------------------------------------

  function PadTwo(n: nat): string {
    if n <= 9 then ['0'] + Decimal(n) else Decimal(n)
  }

  /** The year is written without padding. */
  function CivilText(d: Date): string {
    Decimal(d.year) + "-" + PadTwo(d.month) + "-" + PadTwo(d.day)
  }

  function AddUtcDays(day: string, days: int): string
    requires Shaped(day) && -1 <= days
  {
    CivilText(Shift(Parse(day), days))
  }

  lemma {:induction false} DecimalLength(n: nat)
    ensures n <= 9 ==> |Decimal(n)| == 1
    ensures 10 <= n <= 99 ==> Decimal(n) == Two(n)
    ensures 100 <= n <= 999 ==> |Decimal(n)| == 3
    ensures 1000 <= n <= 9999 ==> Decimal(n) == Two(n / 100) + Two(n % 100)
    ensures n >= 10000 ==> |Decimal(n)| >= 5
  {
    if n >= 10 {
      DecimalLength(n / 10);
      if 1000 <= n <= 9999 {
        ThousandsDigits(n);
      }
    }
  }

  lemma {:induction false} ThousandsDigits(n: nat)
    requires 1000 <= n <= 9999
    ensures Decimal(n) == Two(n / 100) + Two(n % 100)
  {
    var h := n / 100;
    assert n / 10 / 10 == h && h / 10 <= 9 && n % 100 / 10 == n / 10 % 10 && n % 100 % 10 == n % 10;
    assert Decimal(h / 10) == [DigitOf(h / 10)];
    assert Decimal(h) == Two(h);
    assert Decimal(n / 10) == Two(h) + [DigitOf(n / 10 % 10)];
  }

  lemma {:induction false} PadTwoIsTwo(n: nat)
    requires n <= 99
    ensures PadTwo(n) == Two(n)
  {
    DecimalLength(n);
    assert n <= 9 ==> DigitOf(n / 10) == '0';
  }

  /** Written without padding, a date is a YYYY-MM-DD text exactly for four-digit years. */
  lemma {:induction false} CivilTextShaped(d: Date)
    requires Real(d)
    ensures if 1000 <= d.year <= 9999 then CivilText(d) == DayText(d) else |CivilText(d)| != 10
  {
    DecimalLength(d.year);
    PadTwoIsTwo(d.month);
    PadTwoIsTwo(d.day);
  }

  const LAST_DAY := Date(9999, 12, 31)

  predicate NextDayIsText(d: Date)
    requires Real(d) && d.year <= 9999
  {
    d != LAST_DAY && AddUtcDays(DayText(d), 1) == DayText(NextDate(d))
  }

  lemma {:induction false} SameTextSameDate(a: Date, b: Date)
    requires Real(a) && Real(b) && b.year <= 9999
    ensures CivilText(a) == DayText(b) <==> a == b && 1000 <= a.year
  {
    CivilTextShaped(a);
    if 1000 <= a.year <= 9999 {
      assert Parse(DayText(a)) == a && Parse(DayText(b)) == b;
    }
  }

  /** The day after, as a text: right exactly from 0999-12-31 to 9999-12-30. Before that the year
      loses its leading zero, or is taken for one of the twentieth century. */
  lemma {:induction false} NextDayIff(d: Date)
    requires Real(d) && d.year <= 9999
    ensures NextDayIsText(d) <==> !Before(d, Date(999, 12, 31)) && d != LAST_DAY
  {
    if d != LAST_DAY {
      SameTextSameDate(Shift(d, 1), NextDate(d));
    }
    if d.year >= 100 {
      TomorrowIsNext(d);
    } else {
      TomorrowIsModern(d);
    }
  }

  // -- The half-open range ---------------------------------------------------------------------------

  /** `billingDayOf`: the leading YYYY-MM-DD, whatever follows it. (Trimming is the caller's.) */
  function BillingDayOf(raw: string): (day: Option<string>)
    ensures day.Some? ==> Shaped(day.value)
  {
    if |raw| >= 10 && Shaped(raw[..10]) then Some(raw[..10]) else None
  }

  /** A text stands for a day exactly when it begins with one, and then for that one. */
  lemma {:induction false} BillingDayOfIff(raw: string, day: string)
    ensures BillingDayOf(raw) == Some(day) <==> Shaped(day) && exists rest :: raw == day + rest
  {
    if BillingDayOf(raw) == Some(day) {
      assert raw == day + raw[10..];
    }
  }

  datatype BillingRange = BillingRange(fromDay: string, toDay: string, from: string, toExclusive: string)

  /** `billingDayRange`, each bound without its constant midnight suffix. */
  function BillingDayRange(rawFrom: string, rawTo: string): Option<BillingRange> {
    var from, to := BillingDayOf(rawFrom), BillingDayOf(rawTo);
    if from.None? || to.None? then None
    else Some(BillingRange(from.value, to.value, from.value, AddUtcDays(to.value, 1)))
  }

  predicate InRange(day: string, range: BillingRange) {
    !Less(day, range.from) && Less(day, range.toExclusive)
  }

  predicate Selected(day: string, range: BillingRange) {
    !Less(day, range.fromDay) && !Less(range.toDay, day)
  }

  /** For the days a billing screen can hold, the half-open test on the bounds selects exactly the
      calendar days from the first picked day to the last, leap days included. */
  lemma {:induction false} HalfOpenIsClosed(rawFrom: string, rawTo: string, day: string)
    requires BillingDayOf(rawFrom).Some? && BillingDayOf(rawTo).Some?
    requires Shaped(day) && Real(Parse(day))
    requires var to := Parse(BillingDayOf(rawTo).value);
             Real(to) && !Before(to, Date(999, 12, 31)) && to != LAST_DAY
    ensures var range := BillingDayRange(rawFrom, rawTo).value;
            && range.fromDay == rawFrom[..10] && range.toDay == rawTo[..10]
            && (InRange(day, range) <==> Selected(day, range))
            && (InRange(day, range) <==> !Before(Parse(day), Parse(rawFrom[..10])) && !Before(Parse(rawTo[..10]), Parse(day)))
  {
    var range := BillingDayRange(rawFrom, rawTo).value;
    var to, d := Parse(range.toDay), Parse(day);
    TextOfParse(range.toDay);
    LessIsBefore(day, range.fromDay);
    NextDayIff(to);
    LessIsBefore(day, range.toExclusive);
    LessIsBefore(range.toDay, day);
    NothingBetween(to, d);
  }

  lemma {:induction false} TwoOfDigits(a: char, b: char)
    requires Digit(a) && Digit(b)
    ensures Two(10 * Value(a) + Value(b)) == [a, b]
  {
    var n := 10 * Value(a) + Value(b);
    assert n / 10 == Value(a) && n % 10 == Value(b);
  }

  lemma {:induction false} TextOfParse(s: string)
    requires Shaped(s)
    ensures DayText(Parse(s)) == s
  {
    var d := Parse(s);
    TwoOfDigits(s[0], s[1]);
    TwoOfDigits(s[2], s[3]);
    TwoOfDigits(s[5], s[6]);
    TwoOfDigits(s[8], s[9]);
    assert d.year / 100 == 10 * Value(s[0]) + Value(s[1]) && d.year % 100 == 10 * Value(s[2]) + Value(s[3]);
    assert s == [s[0], s[1]] + [s[2], s[3]] + "-" + [s[5], s[6]] + "-" + [s[8], s[9]];
  }

  // -- Calendar days as numbers ------------------------------------------------------------------------

  function Num(day: string): nat
    requires IsCalendarDay(day)
  {
    CalendarDayIff(day);
    DayNumber(Parse(day))
  }

  /** On calendar days the string comparison is the comparison of day numbers. */
  lemma {:induction false} LessIsNumber(a: string, b: string)
    requires IsCalendarDay(a) && IsCalendarDay(b)
    ensures Less(a, b) <==> Num(a) < Num(b)
    ensures a == b <==> Num(a) == Num(b)
  {
    CalendarDayIff(a);
    CalendarDayIff(b);
    LessIsBefore(a, b);
    TextOfParse(a);
    TextOfParse(b);
    BeforeIffFewerDays(Parse(a), Parse(b));
  }

  function MaxDay(a: string, b: string): string {
    if Less(b, a) then a else b
  }

  function MinDay(a: string, b: string): string {
    if Less(a, b) then a else b
  }
}
