/**
 * The proleptic Gregorian calendar the browser's `Date` works in, on day
 * numbers: day 0 is 1970-01-01, a Thursday. Day numbers stand for calendar
 * dates ("YYYY-MM-DD" strings) everywhere in the model; instants (ISO
 * timestamps) are milliseconds since the same epoch.
 */
module Calendar {

  const MsPerDay: int := 86400000

  datatype Date = Date(year: int, month: int, day: int)

  predicate IsLeapYear(y: int)
  {
    y % 4 == 0 && (y % 100 != 0 || y % 400 == 0)
  }

  function DaysInYear(y: int): (n: int)
    ensures n == 365 || n == 366
    ensures n == 366 <==> IsLeapYear(y)
  {
    if IsLeapYear(y) then 366 else 365
  }

  function DaysInMonth(y: int, m: int): (n: int)
    requires 1 <= m <= 12
    ensures 28 <= n <= 31
    ensures m == 2 ==> (n == 29 <==> IsLeapYear(y))
  {
    if m == 2 then (if IsLeapYear(y) then 29 else 28)
    else if m == 4 || m == 6 || m == 9 || m == 11 then 30
    else 31
  }

  predicate ValidDate(c: Date)
  {
    1 <= c.month <= 12 && 1 <= c.day <= DaysInMonth(c.year, c.month)
  }

  /** Leap years strictly before year `y`, counted from a fixed origin. */
  function LeapYearsBefore(y: int): int
  {
    (y - 1) / 4 - (y - 1) / 100 + (y - 1) / 400
  }

  /** Day number of January 1st of year `y`. */
  function DaysBeforeYear(y: int): int
  {
    365 * (y - 1970) + LeapYearsBefore(y) - LeapYearsBefore(1970)
  }

  lemma YearLength(y: int)
    ensures DaysBeforeYear(y + 1) == DaysBeforeYear(y) + DaysInYear(y)
  {
    assert y / 4 - (y - 1) / 4 == if y % 4 == 0 then 1 else 0;
    assert y / 100 - (y - 1) / 100 == if y % 100 == 0 then 1 else 0;
    assert y / 400 - (y - 1) / 400 == if y % 400 == 0 then 1 else 0;
  }

  lemma {:induction false} DaysBeforeYearMonotone(a: int, b: int)
    requires a < b
    ensures DaysBeforeYear(a + 1) <= DaysBeforeYear(b)
    decreases b - a
  {
    YearLength(a);
    if a + 1 < b {
      DaysBeforeYearMonotone(a + 1, b);
      YearLength(a + 1);
    }
  }

  /** Days before the first of each month in a common year; the last entry is the whole year. */
  const CumulativeDays: seq<int> := [0, 31, 59, 90, 120, 151, 181, 212, 243, 273, 304, 334, 365]

  /** Days of year `y` before the first of month `m` (month 13 stands for the next January). */
  function DaysBeforeMonth(y: int, m: int): (n: int)
    requires 1 <= m <= 13
    ensures 0 <= n
    ensures m == 1 ==> n == 0
  {
    CumulativeDays[m - 1] + (if m > 2 && IsLeapYear(y) then 1 else 0)
  }

  /** Each month starts where the one before it ends. */
  lemma MonthStep(y: int, m: int)
    requires 1 <= m <= 12
    ensures DaysBeforeMonth(y, m + 1) == DaysBeforeMonth(y, m) + DaysInMonth(y, m)
  {
  }

  lemma WholeYear(y: int)
    ensures DaysBeforeMonth(y, 13) == DaysInYear(y)
  {
  }

  lemma DaysBeforeMonthMonotone(y: int, a: int, b: int)
    requires 1 <= a < b <= 13
    ensures DaysBeforeMonth(y, a + 1) <= DaysBeforeMonth(y, b)
  {
  }

  /**
   * Day number of year `y`, month `m`, day of month `d`. As in ECMAScript's
   * MakeDay, `d` is not limited to the month's length: the surplus spills
   * into the following months.
   */
  function DaysFromCivil(y: int, m: int, d: int): int
    requires 1 <= m <= 12
  {
    DaysBeforeYear(y) + DaysBeforeMonth(y, m) + d - 1
  }

  function YearDown(n: int, y: int): (r: int)
    requires n < DaysBeforeYear(y + 1)
    ensures DaysBeforeYear(r) <= n < DaysBeforeYear(r + 1)
    decreases DaysBeforeYear(y) - n
  {
    if DaysBeforeYear(y) <= n then y
    else
      YearLength(y - 1);
      YearDown(n, y - 1)
  }

  function YearUp(n: int, y: int): (r: int)
    requires DaysBeforeYear(y) <= n
    ensures DaysBeforeYear(r) <= n < DaysBeforeYear(r + 1)
    decreases n - DaysBeforeYear(y)
  {
    if n < DaysBeforeYear(y + 1) then y
    else
      YearLength(y);
      YearUp(n, y + 1)
  }

  /** The year that day `n` falls in. */
  function YearOf(n: int): (y: int)
    ensures DaysBeforeYear(y) <= n < DaysBeforeYear(y + 1)
  {
    var guess := 1970 + (n * 400) / 146097;
    if DaysBeforeYear(guess) <= n then YearUp(n, guess) else YearDown(n, guess - 1)
  }

  /** The month that day `doy` of year `y` (counted from 0) falls in. */
  function MonthFrom(y: int, doy: int): (r: int)
    requires 0 <= doy < DaysInYear(y)
    ensures 1 <= r <= 12 && DaysBeforeMonth(y, r) <= doy < DaysBeforeMonth(y, r + 1)
  {
    if doy < DaysBeforeMonth(y, 2) then 1
    else if doy < DaysBeforeMonth(y, 3) then 2
    else if doy < DaysBeforeMonth(y, 4) then 3
    else if doy < DaysBeforeMonth(y, 5) then 4
    else if doy < DaysBeforeMonth(y, 6) then 5
    else if doy < DaysBeforeMonth(y, 7) then 6
    else if doy < DaysBeforeMonth(y, 8) then 7
    else if doy < DaysBeforeMonth(y, 9) then 8
    else if doy < DaysBeforeMonth(y, 10) then 9
    else if doy < DaysBeforeMonth(y, 11) then 10
    else if doy < DaysBeforeMonth(y, 12) then 11
    else 12
  }

  /** The calendar date of day `n` (ECMAScript's YearFromTime, MonthFromTime, DateFromTime). */
  function ToCivil(n: int): (c: Date)
    ensures ValidDate(c)
    ensures DaysFromCivil(c.year, c.month, c.day) == n
  {
    var y := YearOf(n);
    YearLength(y);
    var doy := n - DaysBeforeYear(y);
    var m := MonthFrom(y, doy);
    MonthStep(y, m);
    Date(y, m, doy - DaysBeforeMonth(y, m) + 1)
  }

  lemma YearOfUnique(n: int, y: int)
    requires DaysBeforeYear(y) <= n < DaysBeforeYear(y + 1)
    ensures YearOf(n) == y
  {
    var r := YearOf(n);
    if r < y {
      DaysBeforeYearMonotone(r, y);
    } else if r > y {
      DaysBeforeYearMonotone(y, r);
    }
  }

  lemma MonthFromUnique(y: int, doy: int, m: int)
    requires 1 <= m <= 12 && DaysBeforeMonth(y, m) <= doy < DaysBeforeMonth(y, m + 1)
    ensures 0 <= doy < DaysInYear(y) && MonthFrom(y, doy) == m
  {
    DaysBeforeMonthMonotone(y, m, 13);
    var r := MonthFrom(y, doy);
    if r < m {
      DaysBeforeMonthMonotone(y, r, m);
    } else if r > m {
      DaysBeforeMonthMonotone(y, m, r);
    }
  }

  /** Every valid date has exactly one day number: ToCivil inverts DaysFromCivil. */
  lemma CivilRoundTrip(c: Date)
    requires ValidDate(c)
    ensures ToCivil(DaysFromCivil(c.year, c.month, c.day)) == c
  {
    MonthStep(c.year, c.month);
    YearLength(c.year);
    DaysBeforeMonthMonotone(c.year, c.month, 13);
    WholeYear(c.year);
    ToCivilWithin(DaysFromCivil(c.year, c.month, c.day), c.year, c.month);
  }

  /** A day inside month `m` of year `y` is dated in that month of that year. */
  lemma ToCivilWithin(n: int, y: int, m: int)
    requires DaysBeforeYear(y) <= n < DaysBeforeYear(y + 1)
    requires 1 <= m <= 12 && DaysBeforeMonth(y, m) <= n - DaysBeforeYear(y) < DaysBeforeMonth(y, m + 1)
    ensures ToCivil(n) == Date(y, m, n - DaysBeforeYear(y) - DaysBeforeMonth(y, m) + 1)
  {
    YearOfUnique(n, y);
    MonthFromUnique(y, n - DaysBeforeYear(y), m);
  }

  /** Day of the week, 0 for Sunday to 6 for Saturday (ECMAScript's WeekDay, `getDay`). */
  function Weekday(n: int): (w: int)
    ensures 0 <= w < 7
  {
    (n + 4) % 7
  }

  predicate IsWeekend(n: int)
  {
    Weekday(n) == 0 || Weekday(n) == 6
  }

  /** The characters `toISOString` writes. */
  predicate IsoChar(c: char)
  {
    '0' <= c <= '9' || c == '-' || c == '+' || c == 'T' || c == ':' || c == '.' || c == 'Z'
  }

  predicate IsDigit(c: char)
  {
    '0' <= c <= '9'
  }

  /** Decimal digits of `n`, without leading zeros. */
  function Digits(n: nat): (s: string)
    ensures |s| >= 1
  {
    if n < 10 then [('0' as int + n) as char] else Digits(n / 10) + [('0' as int + n % 10) as char]
  }

  lemma {:induction false} DigitsAreDigits(n: nat)
    ensures forall c :: c in Digits(n) ==> IsDigit(c)
  {
    if n >= 10 {
      DigitsAreDigits(n / 10);
    }
  }

  /** `n` in decimal, zero-padded on the left to at least `width` characters. */
  function PadNumber(n: nat, width: nat): (s: string)
    ensures |s| >= width
  {
    var ds := Digits(n);
    if |ds| >= width then ds else seq(width - |ds|, _ => '0') + ds
  }

  lemma PadNumberDigits(n: nat, width: nat)
    ensures forall c :: c in PadNumber(n, width) ==> IsDigit(c)
  {
    DigitsAreDigits(n);
  }

  /** The year as `toISOString` writes it: four digits, or a sign and six digits outside 0..9999. */
  function IsoYear(y: int): (s: string)
    ensures |s| >= 4
  {
    if 0 <= y <= 9999 then PadNumber(y, 4)
    else if y < 0 then "-" + PadNumber(-y, 6)
    else "+" + PadNumber(y, 6)
  }

  lemma IsoYearChars(y: int)
    ensures forall c :: c in IsoYear(y) ==> IsoChar(c)
  {
    if 0 <= y <= 9999 {
      PadNumberDigits(y, 4);
    } else if y < 0 {
      PadNumberDigits(-y, 6);
    } else {
      PadNumberDigits(y, 6);
    }
  }

  /** `YYYY-MM-DD`, the first ten characters of `toISOString` for a date in years 0..9999. */
  function IsoDate(n: int): (s: string)
    ensures |s| >= 10
  {
    var c := ToCivil(n);
    IsoYear(c.year) + "-" + PadNumber(c.month, 2) + "-" + PadNumber(c.day, 2)
  }

  /** Text made of the characters `toISOString` writes. */
  predicate IsoText(s: string)
  {
    forall c :: c in s ==> IsoChar(c)
  }

  lemma IsoTextAppend(a: string, b: string)
    requires IsoText(a) && IsoText(b)
    ensures IsoText(a + b)
  {
  }

  lemma PadNumberIso(n: nat, width: nat)
    ensures IsoText(PadNumber(n, width))
  {
    PadNumberDigits(n, width);
  }

  /** An ISO date holds digits, signs and hyphens only: no quote, comma or line break. */
  lemma IsoDateChars(n: int)
    ensures IsoText(IsoDate(n))
  {
    var c := ToCivil(n);
    IsoYearChars(c.year);
    PadNumberIso(c.month, 2);
    PadNumberIso(c.day, 2);
    IsoTextAppend(IsoYear(c.year), "-");
    IsoTextAppend(IsoYear(c.year) + "-", PadNumber(c.month, 2));
    IsoTextAppend(IsoYear(c.year) + "-" + PadNumber(c.month, 2), "-");
    IsoTextAppend(IsoYear(c.year) + "-" + PadNumber(c.month, 2) + "-", PadNumber(c.day, 2));
  }

  /** `toISOString` of the instant `ms` milliseconds after the epoch: `YYYY-MM-DDTHH:MM:SS.sssZ`. */
  function IsoTimestamp(ms: int): (s: string)
    ensures |s| >= 24
  {
    var day := ms / MsPerDay;
    var t := ms % MsPerDay;
    IsoDate(day) + "T" + PadNumber(t / 3600000, 2) + ":" + PadNumber(t / 60000 % 60, 2) + ":"
      + PadNumber(t / 1000 % 60, 2) + "." + PadNumber(t % 1000, 3) + "Z"
  }

  lemma IsoTimestampChars(ms: int)
    ensures IsoText(IsoTimestamp(ms))
  {
    var t := ms % MsPerDay;
    var date, h, m, sec, milli := IsoDate(ms / MsPerDay), PadNumber(t / 3600000, 2),
      PadNumber(t / 60000 % 60, 2), PadNumber(t / 1000 % 60, 2), PadNumber(t % 1000, 3);
    IsoDateChars(ms / MsPerDay);
    PadNumberIso(t / 3600000, 2);
    PadNumberIso(t / 60000 % 60, 2);
    PadNumberIso(t / 1000 % 60, 2);
    PadNumberIso(t % 1000, 3);
    IsoTextAppend(date, "T");
    IsoTextAppend(date + "T", h);
    IsoTextAppend(date + "T" + h, ":");
    IsoTextAppend(date + "T" + h + ":", m);
    IsoTextAppend(date + "T" + h + ":" + m, ":");
    IsoTextAppend(date + "T" + h + ":" + m + ":", sec);
    IsoTextAppend(date + "T" + h + ":" + m + ":" + sec, ".");
    IsoTextAppend(date + "T" + h + ":" + m + ":" + sec + ".", milli);
    IsoTextAppend(date + "T" + h + ":" + m + ":" + sec + "." + milli, "Z");
  }
}
