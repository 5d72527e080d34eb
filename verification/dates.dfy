/**
 Calendar dates as Python's `datetime.date` handles them: the proleptic
 Gregorian calendar, `toordinal()`, `weekday()` (Monday is 0), adding one
 day, `strftime("%d.%m")`, and the `strptime(..., "%d.%m%Y")` call that
 turns an uploaded file name such as `15.09.xlsx` into a date.
 */
module Dates {
  import opened Outcomes
  import opened Text

  datatype Date = Date(year: int, month: int, day: int)

  predicate IsLeap(y: int) {
    y % 4 == 0 && (y % 100 != 0 || y % 400 == 0)
  }

  function DaysInMonth(y: int, m: int): (n: int)
    requires 1 <= m <= 12
    ensures 28 <= n <= 31
  {
    if m == 2 then (if IsLeap(y) then 29 else 28)
    else if m == 4 || m == 6 || m == 9 || m == 11 then 30
    else 31
  }

  /** A date Python can represent: years 1 to 9999 and a day that exists in its month. */
  predicate Valid(d: Date) {
    && 1 <= d.year <= 9999
    && 1 <= d.month <= 12
    && 1 <= d.day <= DaysInMonth(d.year, d.month)
  }

  /** The dates a `datetime.date` can hold. */
  type ValidDate = d: Date | Valid(d) witness Date(1, 1, 1)

  /** Days in the years before `y` (Python's `_days_before_year`). */
  function DaysBeforeYear(y: int): int {
    (y - 1) * 365 + (y - 1) / 4 - (y - 1) / 100 + (y - 1) / 400
  }

  /** Days in the months of year `y` before month `m` (Python's `_days_before_month`). */
  function DaysBeforeMonth(y: int, m: int): int
    requires 1 <= m <= 12
  {
    [0, 31, 59, 90, 120, 151, 181, 212, 243, 273, 304, 334][m - 1]
      + (if m > 2 && IsLeap(y) then 1 else 0)
  }

  /** Python's `date.toordinal()`: 1 for 0001-01-01, counting up by one per day. */
  function Ordinal(d: Date): int
    requires 1 <= d.month <= 12
  {
    DaysBeforeYear(d.year) + DaysBeforeMonth(d.year, d.month) + d.day
  }

  /** Python's `date.weekday()`: Monday is 0 and Sunday is 6. */
  function Weekday(d: Date): (w: int)
    requires 1 <= d.month <= 12
    ensures 0 <= w < 7
  {
    (Ordinal(d) + 6) % 7
  }

  lemma DivStep4(y: int)
    ensures y / 4 - (y - 1) / 4 == (if y % 4 == 0 then 1 else 0)
  {
  }

  lemma DivStep100(y: int)
    ensures y / 100 - (y - 1) / 100 == (if y % 100 == 0 then 1 else 0)
  {
  }

  lemma DivStep400(y: int)
    ensures y / 400 - (y - 1) / 400 == (if y % 400 == 0 then 1 else 0)
  {
  }

  /** A year has 366 days when it is a leap year and 365 otherwise. */
  lemma YearLength(y: int)
    ensures DaysBeforeYear(y + 1) - DaysBeforeYear(y) == (if IsLeap(y) then 366 else 365)
  {
    DivStep4(y);
    DivStep100(y);
    DivStep400(y);
    LeapSteps(y);
  }

  /** The leap rule as the three divisibility steps it combines. */
  lemma LeapSteps(y: int)
    ensures (if IsLeap(y) then 1 else 0) ==
            (if y % 4 == 0 then 1 else 0) - (if y % 100 == 0 then 1 else 0) + (if y % 400 == 0 then 1 else 0)
  {
    if y % 400 == 0 {
      var k := y / 400;
      assert y == 400 * k;
      var a, b := 4 * k, 100 * k;
      assert y == 100 * a && y == 4 * b;
    } else if y % 100 == 0 {
      var k := y / 100;
      assert y == 100 * k;
      var a := 25 * k;
      assert y == 4 * a;
    }
  }

  /** Python's `date + timedelta(days=1)`, before the year-9999 overflow check. */
  function NextDay(d: Date): (r: Date)
    requires Valid(d)
    ensures 1 <= r.month <= 12 && 1 <= r.day <= DaysInMonth(r.year, r.month)
    ensures Ordinal(r) == Ordinal(d) + 1
    ensures d.year <= r.year <= d.year + 1
    ensures Valid(r) <==> d != Date(9999, 12, 31)
  {
    if d.day < DaysInMonth(d.year, d.month) then Date(d.year, d.month, d.day + 1)
    else if d.month < 12 then Date(d.year, d.month + 1, 1)
    else
      YearLength(d.year);
      Date(d.year + 1, 1, 1)
  }

  /** Weekdays cycle: the day after a date falls on the next weekday, Sunday wrapping to Monday. */
  lemma WeekdayOfNextDay(d: ValidDate)
    ensures Weekday(NextDay(d)) == (Weekday(d) + 1) % 7
  {
    var n := NextDay(d);
    assert Weekday(n) == (Ordinal(n) + 6) % 7;
    ModSevenStep(Ordinal(d) + 6, Ordinal(n) + 6);
  }

  lemma ModSevenStep(x: int, y: int)
    requires y == x + 1
    ensures y % 7 == (x % 7 + 1) % 7
  {
  }

  /** The first day of the calendar, 1 January of year 1, is a Monday. */
  lemma FirstDayIsMonday()
    ensures Weekday(Date(1, 1, 1)) == 0
  {
  }

  /** Python's `date.strftime("%d.%m")`: two-digit day, a dot, two-digit month. */
  function FormatDayMonth(d: Date): (s: string)
    requires Valid(d)
    ensures |s| == 5 && s[2] == '.'
    ensures forall i :: 0 <= i < |s| && i != 2 ==> IsDigit(s[i])
  {
    Pad2(d.day) + "." + Pad2(d.month)
  }

  predicate NonZeroDigit(c: char) {
    '1' <= c <= '9'
  }

  /**
   The day field of `strptime`'s `%d`: one of `3[01]`, `[12]\d`, `0[1-9]`,
   `[1-9]` or a space followed by `[1-9]`. The two-digit alternatives
   together are exactly the two-digit numerals from 01 to 31.
   */
  function DayField(s: string): (r: Option<int>)
    ensures r.Some? ==> 1 <= r.value <= 31
  {
    if |s| == 2 && IsDigit(s[0]) && IsDigit(s[1]) && 1 <= 10 * DigitValue(s[0]) + DigitValue(s[1]) <= 31 then
      Some(10 * DigitValue(s[0]) + DigitValue(s[1]))
    else if |s| == 1 && NonZeroDigit(s[0]) then Some(DigitValue(s[0]))
    else if |s| == 2 && s[0] == ' ' && NonZeroDigit(s[1]) then Some(DigitValue(s[1]))
    else None
  }

  /**
   The month field of `strptime`'s `%m`: one of `1[0-2]`, `0[1-9]` or
   `[1-9]`, that is a two-digit numeral from 01 to 12 or one non-zero digit.
   */
  function MonthField(s: string): (r: Option<int>)
    ensures r.Some? ==> 1 <= r.value <= 12
  {
    if |s| == 2 && IsDigit(s[0]) && IsDigit(s[1]) && 1 <= 10 * DigitValue(s[0]) + DigitValue(s[1]) <= 12 then
      Some(10 * DigitValue(s[0]) + DigitValue(s[1]))
    else if |s| == 1 && NonZeroDigit(s[0]) then Some(DigitValue(s[0]))
    else None
  }

  /**
   The schedule date named by an upload: the part of the file name before
   the first `.xlsx`, read as `%d.%m` and completed with `year`
   (`strptime(stem + str(year), "%d.%m%Y")`). With a four-digit year the
   `%Y` field always takes exactly the year's digits, so the stem has to be
   exactly a day field, a dot and a month field. `None` stands for the
   `ValueError` strptime raises, including for a day the month does not have.
   */
  function ScheduleDate(fileName: string, year: int): (r: Option<Date>)
    ensures r.Some? ==> Valid(r.value) && r.value.year == year
  {
    var stem := Split(fileName, ".xlsx")[0];
    var fields := Split(stem, ".");
    if |fields| == 2 && DayField(fields[0]).Some? && MonthField(fields[1]).Some? then
      var date := Date(year, MonthField(fields[1]).value, DayField(fields[0]).value);
      if Valid(date) then Some(date) else None
    else None
  }

  lemma DigitsHaveNoDot(s: string)
    requires AllDigits(s)
    ensures !Contains(s, ".")
  {
    if |s| > 0 {
      assert s[..1][0] == s[0];
      DigitsHaveNoDot(s[1..]);
    }
  }

  lemma Pad2Fields(n: nat)
    requires 1 <= n <= 31
    ensures DayField(Pad2(n)) == Some(n)
    ensures n <= 12 ==> MonthField(Pad2(n)) == Some(n)
  {
    DigitRoundTrip(n / 10);
    DigitRoundTrip(n % 10);
  }

  /**
   Naming an upload after a date with `strftime("%d.%m")` and the `.xlsx`
   suffix, then importing it in that date's year, yields that date.
   */
  lemma {:induction false} ScheduleDateOfFormat(d: Date)
    requires Valid(d)
    ensures ScheduleDate(FormatDayMonth(d) + ".xlsx", d.year) == Some(d)
  {
    var dd, mm := Pad2(d.day), Pad2(d.month);
    var stem := FormatDayMonth(d);
    var name := stem + ".xlsx";
    forall j | 0 <= j < 5
      ensures !OccursAt(name, ".xlsx", j)
    {
      if j == 2 {
        assert name[3] != 'x';
        assert name[j..j + 5][1] == name[3];
      } else {
        assert name[j] != '.';
        assert name[j..j + 5][0] == name[j];
      }
    }
    assert name[5..10] == ".xlsx";
    SplitHead(name, ".xlsx", 5);
    assert name[..5] == stem;
    SplitAtChar(dd, '.', mm);
    assert stem == dd + ['.'] + mm;
    DigitsHaveNoDot(mm);
    SplitWithoutSeparator(mm, ".");
    assert Split(stem, ".") == [dd, mm];
    Pad2Fields(d.day);
    Pad2Fields(d.month);
  }
}
