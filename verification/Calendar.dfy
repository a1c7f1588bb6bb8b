/** The date a measurement is stamped with (src/bench/report.rs): from a count of days, and back. */
module Calendar {
  import opened Decimals

  datatype Date = Date(year: nat, month: nat, day: nat)

  /** The Gregorian rule, which `YearLength` and `MonthLengths` both go by. */
  predicate Leap(year: nat) { (year % 4 == 0 && year % 100 != 0) || year % 400 == 0 }

  function YearLength(year: nat): nat { if Leap(year) then 366 else 365 }

  function MonthLengths(year: nat): (lengths: seq<nat>)
    ensures |lengths| == 12
  {
    [31, if Leap(year) then 29 else 28, 31, 30, 31, 30, 31, 31, 30, 31, 30, 31]
  }

  // ---------------------------------------------------------------------- counting days, once

  function DaysOfYears(from: nat, to: nat): nat
    requires from <= to
  {
    if from == to then 0 else DaysOfYears(from, to - 1) + YearLength(to - 1)
  }

  function DaysOfMonths(year: nat, months: nat): nat
    requires months <= 12
  {
    if months == 0 then 0 else DaysOfMonths(year, months - 1) + MonthLengths(year)[months - 1]
  }

  /** A date of the Gregorian calendar, no earlier than 1970. */
  predicate Valid(date: Date) {
    1970 <= date.year && 1 <= date.month <= 12 && 1 <= date.day <= MonthLengths(date.year)[date.month - 1]
  }

  /** Days from the first of January 1970. */
  function DayNumber(date: Date): nat
    requires Valid(date)
  {
    DaysOfYears(1970, date.year) + DaysOfMonths(date.year, date.month - 1) + date.day - 1
  }

  lemma {:induction false} TwelveMonthsAreAYear(year: nat)
    ensures DaysOfMonths(year, 12) == YearLength(year)
  {
    assert DaysOfMonths(year, 1) == 31;
    assert DaysOfMonths(year, 2) == 31 + MonthLengths(year)[1];
    assert DaysOfMonths(year, 4) == DaysOfMonths(year, 2) + 61;
    assert DaysOfMonths(year, 6) == DaysOfMonths(year, 4) + 61;
    assert DaysOfMonths(year, 8) == DaysOfMonths(year, 6) + 62;
    assert DaysOfMonths(year, 10) == DaysOfMonths(year, 8) + 61;
    assert DaysOfMonths(year, 12) == DaysOfMonths(year, 10) + 61;
  }

  /** `today`, of a number of days since the epoch: the date with that day number. */
  method DateOf(days: nat) returns (date: Date)
    ensures Valid(date) && DayNumber(date) == days
  {
    var year, remaining := 1970, days;
    while true
      invariant 1970 <= year && DaysOfYears(1970, year) + remaining == days
      decreases remaining
    {
      var length := if Leap(year) then 366 else 365;
      if remaining < length {
        break;
      }
      remaining := remaining - length;
      year := year + 1;
    }
    var lengths := MonthLengths(year);
    TwelveMonthsAreAYear(year);
    var month := 0;
    while remaining >= lengths[month]
      invariant month < 12
      invariant DaysOfYears(1970, year) + DaysOfMonths(year, month) + remaining == days
      invariant DaysOfMonths(year, month) + remaining < DaysOfMonths(year, 12)
      decreases 12 - month
    {
      remaining := remaining - lengths[month];
      month := month + 1;
    }
    date := Date(year, month + 1, remaining + 1);
  }

  // ------------------------------------------------------------------------ in closed form

  /** The leap days up to the end of a year, from the first one. */
  function LeapDays(year: nat): int { year / 4 - year / 100 + year / 400 }

  lemma {:induction false} YearsInClosedForm(year: nat)
    requires year >= 1970
    ensures DaysOfYears(1970, year) == 365 * (year - 1970) + LeapDays(year - 1) - LeapDays(1969)
  {
    if year > 1970 {
      YearsInClosedForm(year - 1);
      OneMoreYear(year - 1);
    }
  }

  lemma {:induction false} OneMoreYear(year: nat)
    requires year > 0
    ensures LeapDays(year) - LeapDays(year - 1) == if Leap(year) then 1 else 0
  {
    Steps(year, 4);
    Steps(year, 100);
    Steps(year, 400);
  }

  lemma {:induction false} Steps(n: nat, d: nat)
    requires n > 0 && d in {4, 100, 400}
    ensures n / d - (n - 1) / d == if n % d == 0 then 1 else 0
  {}

  /** The days before a month, by the line that runs through them; February is short by one or two. */
  lemma {:induction false} MonthsInClosedForm(year: nat, month: nat)
    requires 1 <= month <= 12
    ensures DaysOfMonths(year, month - 1)
         == (367 * month - 362) / 12 - (if month <= 2 then 0 else if Leap(year) then 1 else 2)
  {
    if month > 1 { MonthsInClosedForm(year, month - 1); }
  }

  /**
   The day number by arithmetic alone, without a table of months: 365 days a
   year, a leap day every fourth, not every hundredth, but every four hundredth.
   */
  lemma {:induction false} DayNumberInClosedForm(date: Date)
    requires Valid(date)
    ensures var y, m := date.year, date.month;
            var leap := (y % 4 == 0 && y % 100 != 0) || y % 400 == 0;
            DayNumber(date) == 365 * (y - 1970) + ((y - 1) / 4 - (y - 1) / 100 + (y - 1) / 400 - 477)
                               + (367 * m - 362) / 12 - (if m <= 2 then 0 else if leap then 1 else 2) + date.day - 1
  {
    YearsInClosedForm(date.year);
    MonthsInClosedForm(date.year, date.month);
    assert LeapDays(1969) == 477;
  }

  // ------------------------------------------------------------------- one date to a day number

  predicate Before(a: Date, b: Date) {
    a.year < b.year || (a.year == b.year && (a.month < b.month || (a.month == b.month && a.day < b.day)))
  }

  lemma {:induction false} LaterYearsAreFurther(from: nat, a: nat, b: nat)
    requires from <= a < b
    ensures DaysOfYears(from, a) + YearLength(a) <= DaysOfYears(from, b)
    decreases b
  {
    if a < b - 1 { LaterYearsAreFurther(from, a, b - 1); }
  }

  lemma {:induction false} LaterMonthsAreFurther(year: nat, a: nat, b: nat)
    requires a < b <= 12
    ensures DaysOfMonths(year, a) + MonthLengths(year)[a] <= DaysOfMonths(year, b)
    decreases b
  {
    if a < b - 1 { LaterMonthsAreFurther(year, a, b - 1); }
  }

  /** Earlier dates have smaller day numbers: no two dates share one, and days follow dates in order. */
  lemma {:induction false} EarlierIsSmaller(a: Date, b: Date)
    requires Valid(a) && Valid(b)
    ensures Before(a, b) <==> DayNumber(a) < DayNumber(b)
    ensures a == b <==> DayNumber(a) == DayNumber(b)
  {
    if Before(a, b) {
      BeforeIsSmaller(a, b);
    } else if Before(b, a) {
      BeforeIsSmaller(b, a);
    }
  }

  lemma {:induction false} BeforeIsSmaller(a: Date, b: Date)
    requires Valid(a) && Valid(b) && Before(a, b)
    ensures DayNumber(a) < DayNumber(b)
  {
    if a.year < b.year {
      LaterYearsAreFurther(1970, a.year, b.year);
      TwelveMonthsAreAYear(a.year);
      LaterMonthsAreFurther(a.year, a.month - 1, 12);
    } else if a.month < b.month {
      LaterMonthsAreFurther(a.year, a.month - 1, b.month - 1);
    }
  }

  /** From a date to its day number and back is the same date. */
  method DateOfDayNumber(date: Date) returns (again: Date)
    requires Valid(date)
    ensures again == date
  {
    again := DateOf(DayNumber(date));
    EarlierIsSmaller(again, date);
  }

  // ------------------------------------------------------------------------------ as it prints

  /** `{year:04}-{month:02}-{day:02}`. */
  function Stamp(date: Date): string {
    Padded(date.year, 4) + "-" + Padded(date.month, 2) + "-" + Padded(date.day, 2)
  }

  /** Year, month and day in four, two and two digits. */
  lemma {:induction false} TheEpochPrints()
    ensures Stamp(Date(1970, 1, 1)) == "1970-01-01" && Stamp(Date(2046, 12, 31)) == "2046-12-31"
  {
    assert Padded(1970, 4) == "1970" && Padded(1, 2) == "01";
    assert Padded(2046, 4) == "2046" && Padded(12, 2) == "12" && Padded(31, 2) == "31";
  }

  /** `today`: the stamp of the day a count of seconds since the epoch falls in. */
  method Today(seconds: nat) returns (stamp: string)
    ensures exists date :: Valid(date) && stamp == Stamp(date)
                           && 86_400 * DayNumber(date) <= seconds < 86_400 * (DayNumber(date) + 1)
  {
    var date := DateOf(seconds / 86_400);
    stamp := Padded(date.year, 4) + "-" + Padded(date.month, 2) + "-" + Padded(date.day, 2);
    assert stamp == Stamp(date);
  }

  /** Two dates that print alike are the same date. */
  lemma {:induction false} StampsTellDatesApart(a: Date, b: Date)
    requires Valid(a) && Valid(b) && Stamp(a) == Stamp(b)
    ensures a == b
  {
    TwoDigits(a.month); TwoDigits(a.day); TwoDigits(b.month); TwoDigits(b.day);
    var n := |Stamp(a)|;
    assert Stamp(a)[n - 2..] == Padded(a.day, 2) && Stamp(b)[n - 2..] == Padded(b.day, 2);
    assert Stamp(a)[n - 5..n - 3] == Padded(a.month, 2) && Stamp(b)[n - 5..n - 3] == Padded(b.month, 2);
    assert Stamp(a)[..n - 6] == Padded(a.year, 4) && Stamp(b)[..n - 6] == Padded(b.year, 4);
    PaddedIs(a.day, 2); PaddedIs(b.day, 2);
    PaddedIs(a.month, 2); PaddedIs(b.month, 2);
    PaddedIs(a.year, 4); PaddedIs(b.year, 4);
  }

  lemma {:induction false} TwoDigits(n: nat)
    requires n < 100
    ensures |Padded(n, 2)| == 2
  {
    assert Pow10(2) == 10 * Pow10(1);
    DecimalLength(n, 2);
  }
}
