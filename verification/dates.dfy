/** Calendar dates as used by the tenure computation: parsing with
    `datetime.strptime(s, "%Y-%m-%d")` and day differences `(end - start).days`,
    which are differences of proleptic Gregorian ordinals (`date.toordinal`).
 */
module Dates {
  import opened Wrappers
  import opened Text

  datatype Date = Date(year: int, month: int, day: int)

  predicate IsLeap(y: int) {
    y % 4 == 0 && (y % 100 != 0 || y % 400 == 0)
  }

  function DaysInMonth(y: int, m: int): int {
    if m == 2 then (if IsLeap(y) then 29 else 28)
    else if m == 4 || m == 6 || m == 9 || m == 11 then 30
    else 31
  }

  function YearLength(y: int): int {
    if IsLeap(y) then 366 else 365
  }

  /** The dates `datetime` accepts: years 1 to 9999 and a real day of the month. */
  predicate ValidDate(d: Date) {
    1 <= d.year <= 9999 && 1 <= d.month <= 12 && 1 <= d.day <= DaysInMonth(d.year, d.month)
  }

  // ---------------------------------------------------------------------------
  // ordinals

  /** Days in the years before `y`, counting from year 1. */
  function DaysBeforeYear(y: int): int {
    var p := y - 1;
    p * 365 + p / 4 - p / 100 + p / 400
  }

  /** Days in the months of year `y` before month `m`. */
  function DaysBeforeMonth(y: int, m: int): int
    requires 1 <= m <= 12
  {
    var cumulative := [0, 31, 59, 90, 120, 151, 181, 212, 243, 273, 304, 334];
    cumulative[m - 1] + (if m > 2 && IsLeap(y) then 1 else 0)
  }

  /** `date.toordinal()`: 0001-01-01 is day 1. */
  function Ordinal(d: Date): int
    requires 1 <= d.month <= 12
  {
    DaysBeforeYear(d.year) + DaysBeforeMonth(d.year, d.month) + d.day
  }

  /** `(end - start).days` */
  function DaysBetween(start: Date, end: Date): int
    requires 1 <= start.month <= 12 && 1 <= end.month <= 12
  {
    Ordinal(end) - Ordinal(start)
  }

  /** The calendar day after `d`. */
  function NextDay(d: Date): (n: Date)
    requires ValidDate(d)
  {
    if d.day < DaysInMonth(d.year, d.month) then Date(d.year, d.month, d.day + 1)
    else if d.month < 12 then Date(d.year, d.month + 1, 1)
    else Date(d.year + 1, 1, 1)
  }

  /** A year adds its own length to the count of days before the next one. */
  lemma DaysBeforeNextYear(y: int)
    ensures DaysBeforeYear(y + 1) == DaysBeforeYear(y) + YearLength(y)
  {
    StepOver4(y);
    StepOver100(y);
    StepOver400(y);
    DivisorChain(y);
    assert DaysBeforeYear(y + 1) - DaysBeforeYear(y) == 365 + (y / 4 - (y - 1) / 4) - (y / 100 - (y - 1) / 100) + (y / 400 - (y - 1) / 400);
  }

  /** 400 divides only multiples of 100, and 100 only multiples of 4. */
  lemma DivisorChain(y: int)
    ensures y % 400 == 0 ==> y % 100 == 0
    ensures y % 100 == 0 ==> y % 4 == 0
  {
    if y % 400 == 0 {
      HundredDividesMultiple(4 * (y / 400));
    }
    if y % 100 == 0 {
      FourDividesMultiple(25 * (y / 100));
    }
  }

  lemma HundredDividesMultiple(m: int)
    ensures (100 * m) % 100 == 0
  {
  }

  lemma FourDividesMultiple(m: int)
    ensures (4 * m) % 4 == 0
  {
  }

  /** Going from `y - 1` to `y` adds one to `y / 4` exactly when 4 divides `y`;
      likewise for 100 and 400. */
  lemma StepOver4(y: int)
    ensures y / 4 - (y - 1) / 4 == (if y % 4 == 0 then 1 else 0)
  {
  }

  lemma StepOver100(y: int)
    ensures y / 100 - (y - 1) / 100 == (if y % 100 == 0 then 1 else 0)
  {
  }

  lemma StepOver400(y: int)
    ensures y / 400 - (y - 1) / 400 == (if y % 400 == 0 then 1 else 0)
  {
  }

  /** Ordinals count days: the day after a valid date has the next ordinal. */
  lemma OrdinalNextDay(d: Date)
    requires ValidDate(d)
    ensures 1 <= NextDay(d).month <= 12
    ensures Ordinal(NextDay(d)) == Ordinal(d) + 1
  {
    if d.day == DaysInMonth(d.year, d.month) && d.month == 12 {
      DaysBeforeNextYear(d.year);
    }
  }

  /** `NextDay` stays within valid dates below the year 9999. */
  lemma NextDayValid(d: Date)
    requires ValidDate(d) && d.year < 9999
    ensures ValidDate(NextDay(d))
  {
  }

  // ---------------------------------------------------------------------------
  // strptime(s, "%Y-%m-%d")

  function DigitValue(c: char): int {
    c as int - '0' as int
  }

  /** The `%m` directive, `1[0-2]|0[1-9]|[1-9]`, which must be followed by `-`:
      the month and the index after the `-`. */
  function MonthField(r: string): Option<(int, nat)> {
    if |r| >= 3 && r[0] == '1' && '0' <= r[1] <= '2' && r[2] == '-' then Some((10 + DigitValue(r[1]), 3))
    else if |r| >= 3 && r[0] == '0' && '1' <= r[1] <= '9' && r[2] == '-' then Some((DigitValue(r[1]), 3))
    else if |r| >= 2 && '1' <= r[0] <= '9' && r[1] == '-' then Some((DigitValue(r[0]), 2))
    else None
  }

  /** The `%d` directive, `3[01]|[12]\d|0[1-9]|[1-9]| [1-9]`, which must use up
      the rest of the text (otherwise "unconverted data remains"). */
  function DayField(r: string): Option<int> {
    if |r| == 2 && r[0] == '3' && '0' <= r[1] <= '1' then Some(30 + DigitValue(r[1]))
    else if |r| == 2 && '1' <= r[0] <= '2' && IsDigit(r[1]) then Some(10 * DigitValue(r[0]) + DigitValue(r[1]))
    else if |r| == 2 && r[0] == '0' && '1' <= r[1] <= '9' then Some(DigitValue(r[1]))
    else if |r| == 1 && '1' <= r[0] <= '9' then Some(DigitValue(r[0]))
    else if |r| == 2 && r[0] == ' ' && '1' <= r[1] <= '9' then Some(DigitValue(r[1]))
    else None
  }

  /** `datetime.strptime(s, "%Y-%m-%d")`: `None` where it raises. */
  function ParseDate(s: string): (r: Option<Date>)
    ensures r.Some? ==> ValidDate(r.value)
  {
    if |s| < 5 || !(IsDigit(s[0]) && IsDigit(s[1]) && IsDigit(s[2]) && IsDigit(s[3])) || s[4] != '-' then None
    else
      var year := 1000 * DigitValue(s[0]) + 100 * DigitValue(s[1]) + 10 * DigitValue(s[2]) + DigitValue(s[3]);
      match MonthField(s[5..])
      case None => None
      case Some((month, used)) =>
        match DayField(s[5 + used..])
        case None => None
        case Some(day) =>
          var d := Date(year, month, day);
          if ValidDate(d) then Some(d) else None
  }

  /** A date with a missing value is passed to `strptime` as `None`, which raises. */
  function ParseField(s: Option<string>): Option<Date> {
    match s
    case None => None
    case Some(t) => ParseDate(t)
  }

  // ---------------------------------------------------------------------------
  // the ISO form the application form submits

  function Digit(n: int): char
    requires 0 <= n <= 9
  {
    ('0' as int + n) as char
  }

  function Pad2(n: int): string
    requires 0 <= n <= 99
  {
    [Digit(n / 10), Digit(n % 10)]
  }

  /** `d.strftime("%Y-%m-%d")` */
  function Format(d: Date): string
    requires ValidDate(d)
  {
    [Digit(d.year / 1000), Digit(d.year / 100 % 10), Digit(d.year / 10 % 10), Digit(d.year % 10)]
      + "-" + Pad2(d.month) + "-" + Pad2(d.day)
  }

  lemma DigitValueOfDigit(n: int)
    requires 0 <= n <= 9
    ensures DigitValue(Digit(n)) == n
  {
  }

  lemma YearDigits(y: int)
    requires 1 <= y <= 9999
    ensures 1000 * DigitValue(Digit(y / 1000)) + 100 * DigitValue(Digit(y / 100 % 10))
            + 10 * DigitValue(Digit(y / 10 % 10)) + DigitValue(Digit(y % 10)) == y
  {
    DigitValueOfDigit(y / 1000);
    DigitValueOfDigit(y / 100 % 10);
    DigitValueOfDigit(y / 10 % 10);
    DigitValueOfDigit(y % 10);
    DecimalDigits(y);
  }

  /** A four-digit number is the sum of its digits times their place values. */
  lemma DecimalDigits(y: int)
    requires 1 <= y <= 9999
    ensures 1000 * (y / 1000) + 100 * (y / 100 % 10) + 10 * (y / 10 % 10) + y % 10 == y
    ensures 0 <= y / 1000 <= 9
  {
    assert y / 100 == 10 * (y / 1000) + y / 100 % 10;
    assert y / 10 == 10 * (y / 100) + y / 10 % 10;
    assert y == 10 * (y / 10) + y % 10;
  }

  lemma MonthDigits(m: int, rest: string)
    requires 1 <= m <= 12
    ensures MonthField(Pad2(m) + "-" + rest) == Some((m, 3))
  {
    var r := Pad2(m) + "-" + rest;
    assert r[2] == '-';
  }

  lemma DayDigits(d: int)
    requires 1 <= d <= 31
    ensures DayField(Pad2(d)) == Some(d)
  {
  }

  /** Every valid date written as `YYYY-MM-DD` parses back to itself. */
  lemma ParseFormat(d: Date)
    requires ValidDate(d)
    ensures ParseDate(Format(d)) == Some(d)
  {
    var s := Format(d);
    assert |s| == 10 && s[4] == '-';
    YearDigits(d.year);
    assert s[5..] == Pad2(d.month) + "-" + Pad2(d.day);
    MonthDigits(d.month, Pad2(d.day));
    assert s[8..] == Pad2(d.day);
    DayDigits(d.day);
  }

  /** A date parsed from text always has a real month, so its ordinal exists. */
  lemma ParsedDatesHaveOrdinals(s: string)
    requires ParseDate(s).Some?
    ensures 1 <= ParseDate(s).value.month <= 12
  {
  }

  /** The worked example of the tenure rule: 2020-01-01 to 2022-01-01 spans the
      leap year 2020, so it is 731 days (not 730). */
  lemma TwoYearsExample()
    ensures ParseDate("2020-01-01") == Some(Date(2020, 1, 1))
    ensures ParseDate("2022-01-01") == Some(Date(2022, 1, 1))
    ensures DaysBetween(Date(2020, 1, 1), Date(2022, 1, 1)) == 731
  {
    DaysBeforeNextYear(2020);
    DaysBeforeNextYear(2021);
    assert "2020-01-01"[5..] == "01-01";
    assert "2020-01-01"[8..] == "01";
    assert "2022-01-01"[5..] == "01-01";
    assert "2022-01-01"[8..] == "01";
  }

  /** `strptime` also takes a one-digit month and a space-padded day. */
  lemma LenientFormExample()
    ensures ParseDate("2020-1- 5") == Some(Date(2020, 1, 5))
  {
    assert "2020-1- 5"[5..] == "1- 5";
    assert MonthField("1- 5") == Some((1, 2));
    assert "2020-1- 5"[7..] == " 5";
  }

  /** A month past December and a 29th of February outside a leap year raise. */
  lemma RejectedFormsExample()
    ensures ParseDate("2020-13-01") == None
    ensures ParseDate("2021-02-29") == None
  {
    assert "2020-13-01"[5..] == "13-01";
    assert MonthField("13-01") == None;
    assert "2021-02-29"[5..] == "02-29";
    assert "2021-02-29"[8..] == "29";
  }
}
