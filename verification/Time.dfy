/** Time as whole nanoseconds since 1 January of year 1 in UTC, the zero of Go's `time.Time`, and the
    RFC 3339 text (section 5.6 of RFC 3339) that the store uses inside its counter keys. */
module Time {

  const SECOND: int := 1_000_000_000
  const MINUTE: int := 60_000_000_000
  const DAY: int := 86_400_000_000_000

  /** The first instant of year 10000, which RFC 3339 cannot write. */
  const YEAR_10000: int := 3652059 * DAY

  /** `Truncate(time.Minute)`: the start of the minute that holds `t`. */
  function TruncateMinute(t: int): (m: int)
    ensures m <= t < m + MINUTE && m % MINUTE == 0
    ensures t >= 0 ==> m >= 0
  {
    t - t % MINUTE
  }

  // ------------------------------------------------------------------ civil dates

  predicate IsLeap(year: int) {
    year % 4 == 0 && (year % 100 != 0 || year % 400 == 0)
  }

  function DaysBeforeYear(year: int): int {
    365 * (year - 1) + (year - 1) / 4 - (year - 1) / 100 + (year - 1) / 400
  }

  lemma NextFourth(year: int)
    ensures year / 4 == (year - 1) / 4 + if year % 4 == 0 then 1 else 0
  {
  }

  lemma NextCentury(year: int)
    ensures year / 100 == (year - 1) / 100 + if year % 100 == 0 then 1 else 0
  {
  }

  lemma NextFourCenturies(year: int)
    ensures year / 400 == (year - 1) / 400 + if year % 400 == 0 then 1 else 0
  {
  }

  lemma LeapCases(year: int)
    ensures year % 400 == 0 ==> year % 100 == 0
    ensures year % 100 == 0 ==> year % 4 == 0
  {
  }

  lemma YearLength(year: int)
    ensures DaysBeforeYear(year + 1) == DaysBeforeYear(year) + if IsLeap(year) then 366 else 365
  {
    NextFourth(year);
    NextCentury(year);
    NextFourCenturies(year);
    LeapCases(year);
  }

  /** The year of a day, searched upwards from `year`. */
  function YearOfDay(day: int, year: int): (found: int)
    requires 1 <= year && DaysBeforeYear(year) <= day
    ensures year <= found
    ensures DaysBeforeYear(found) <= day < DaysBeforeYear(found + 1)
    decreases day - DaysBeforeYear(year)
  {
    YearLength(year);
    if day < DaysBeforeYear(year + 1) then year else YearOfDay(day, year + 1)
  }

  function DaysBeforeMonth(month: int, leap: bool): (days: int)
    requires 1 <= month <= 13
  {
    (if month > 2 && leap then 1 else 0)
    + [0, 31, 59, 90, 120, 151, 181, 212, 243, 273, 304, 334, 365][month - 1]
  }

  function MonthOfDay(day: int, month: int, leap: bool): (found: int)
    requires 1 <= month <= 12 && DaysBeforeMonth(month, leap) <= day < DaysBeforeMonth(13, leap)
    ensures month <= found <= 12
    ensures DaysBeforeMonth(found, leap) <= day < DaysBeforeMonth(found + 1, leap)
    decreases 12 - month
  {
    if day < DaysBeforeMonth(month + 1, leap) then month else MonthOfDay(day, month + 1, leap)
  }

  // ------------------------------------------------------------------ decimal text

  function DigitChar(n: int): (c: char)
    requires 0 <= n < 10
    ensures '0' <= c <= '9'
  {
    '0' + n as char
  }

  predicate IsDigit(c: char) {
    '0' <= c <= '9'
  }

  function DigitValue(c: char): int
    requires IsDigit(c)
  {
    (c - '0') as int
  }

  function TwoDigits(n: int): (s: string)
    requires 0 <= n < 100
    ensures |s| == 2 && IsDigit(s[0]) && IsDigit(s[1])
    ensures Two(s, 0) == n
  {
    [DigitChar(n / 10), DigitChar(n % 10)]
  }

  /** A year is written with four digits, or with as many as it needs. */
  function YearDigits(n: int): (s: string)
    requires n >= 0
    ensures |s| >= 4 && forall i :: 0 <= i < |s| ==> IsDigit(s[i])
    ensures n < 10000 <==> |s| == 4
    ensures n < 10000 ==> Two(s, 0) == n / 100 && Two(s, 2) == n % 100
    decreases n
  {
    if n < 10000 then
      TwoDigits(n / 100) + TwoDigits(n % 100)
    else
      YearDigits(n / 10) + [DigitChar(n % 10)]
  }

  /** The number written by the two digits at `i`. */
  function Two(s: string, i: nat): int
    requires i + 1 < |s| && IsDigit(s[i]) && IsDigit(s[i + 1])
  {
    10 * DigitValue(s[i]) + DigitValue(s[i + 1])
  }

  // ------------------------------------------------------------------ calendar fields

  datatype Civil = Civil(year: int, month: int, day: int, hour: int, minute: int, second: int)

  predicate IsCivil(c: Civil) {
    && 1 <= c.month <= 12
    && 1 <= c.day <= DaysBeforeMonth(c.month + 1, IsLeap(c.year)) - DaysBeforeMonth(c.month, IsLeap(c.year))
    && 0 <= c.hour < 24 && 0 <= c.minute < 60 && 0 <= c.second < 60
  }

  function SecondsOf(c: Civil): int
    requires IsCivil(c)
  {
    (DaysBeforeYear(c.year) + DaysBeforeMonth(c.month, IsLeap(c.year)) + c.day - 1) * 86400
    + c.hour * 3600 + c.minute * 60 + c.second
  }

  lemma ClockFields(sec: int)
    requires 0 <= sec < 86400
    ensures 0 <= sec / 3600 < 24 && 0 <= sec / 60 % 60 < 60 && 0 <= sec % 60 < 60
    ensures sec / 3600 * 3600 + sec / 60 % 60 * 60 + sec % 60 == sec
  {
  }

  /** The calendar fields of a day number. */
  function DateOf(day: int): (date: (int, int, int))
    requires day >= 0
    ensures date.0 == YearOfDay(day, 1) && date.0 >= 1
    ensures 1 <= date.1 <= 12
    ensures 1 <= date.2 <= DaysBeforeMonth(date.1 + 1, IsLeap(date.0)) - DaysBeforeMonth(date.1, IsLeap(date.0))
    ensures DaysBeforeYear(date.0) + DaysBeforeMonth(date.1, IsLeap(date.0)) + date.2 - 1 == day
  {
    var year := YearOfDay(day, 1);
    YearLength(year);
    var inYear := day - DaysBeforeYear(year);
    var month := MonthOfDay(inYear, 1, IsLeap(year));
    (year, month, inYear - DaysBeforeMonth(month, IsLeap(year)) + 1)
  }

  /** The calendar fields of a count of seconds, and that they count back to it. */
  function CivilOf(secs: int): (c: Civil)
    requires secs >= 0
    ensures IsCivil(c) && c.year >= 1
    ensures SecondsOf(c) == secs
  {
    var date, sec := DateOf(secs / 86400), secs % 86400;
    ClockFields(sec);
    Civil(date.0, date.1, date.2, sec / 3600, sec / 60 % 60, sec % 60)
  }

  // ------------------------------------------------------------------ RFC 3339

  function Written(c: Civil): (s: string)
    requires IsCivil(c) && c.year >= 1
  {
    YearDigits(c.year) + "-" + TwoDigits(c.month) + "-" + TwoDigits(c.day)
    + "T" + TwoDigits(c.hour) + ":" + TwoDigits(c.minute) + ":" + TwoDigits(c.second) + "Z"
  }

  /** `Format(time.RFC3339)` of a UTC instant; fractions of a second are not written. */
  function Rfc3339(t: int): (s: string)
    requires t >= 0
  {
    Written(CivilOf(t / SECOND))
  }

  datatype Parsed = Instant(t: int) | Malformed

  predicate HasShape(s: string) {
    && |s| == 20
    && s[4] == '-' && s[7] == '-' && s[10] == 'T' && s[13] == ':' && s[16] == ':' && s[19] == 'Z'
    && IsDigit(s[0]) && IsDigit(s[1]) && IsDigit(s[2]) && IsDigit(s[3])
    && IsDigit(s[5]) && IsDigit(s[6]) && IsDigit(s[8]) && IsDigit(s[9])
    && IsDigit(s[11]) && IsDigit(s[12]) && IsDigit(s[14]) && IsDigit(s[15])
    && IsDigit(s[17]) && IsDigit(s[18])
  }

  function Fields(s: string): Civil
    requires HasShape(s)
  {
    Civil(100 * Two(s, 0) + Two(s, 2), Two(s, 5), Two(s, 8), Two(s, 11), Two(s, 14), Two(s, 17))
  }

  /** `time.Parse(time.RFC3339, s)` on the whole-second UTC form. */
  function Parse(s: string): Parsed {
    if HasShape(s) && IsCivil(Fields(s)) then Instant(SecondsOf(Fields(s)) * SECOND) else Malformed
  }

  lemma WrittenHasNoBar(c: Civil)
    requires IsCivil(c) && c.year >= 1
    ensures '|' !in Written(c)
  {
  }

  lemma ReadWritten(c: Civil)
    requires IsCivil(c) && c.year >= 1
    ensures c.year < 10000 ==> HasShape(Written(c)) && Fields(Written(c)) == c
    ensures c.year >= 10000 ==> !HasShape(Written(c))
  {
    var s, y := Written(c), YearDigits(c.year);
    assert s[0] == y[0] && s[1] == y[1] && s[2] == y[2] && s[3] == y[3];
    if c.year >= 10000 {
      assert s[4] == y[4] && IsDigit(y[4]);
    }
  }

  lemma YearBeforeTenThousand(day: int)
    requires day >= 0
    ensures YearOfDay(day, 1) < 10000 <==> day < 3652059
  {
  }

  lemma DayOfInstant(t: int)
    requires t >= 0
    ensures t / SECOND >= 0
    ensures t / SECOND / 86400 < 3652059 <==> t < YEAR_10000
    ensures t / SECOND * SECOND == t - t % SECOND
  {
  }

  lemma CivilYear(secs: int)
    requires secs >= 0
    ensures CivilOf(secs).year == YearOfDay(secs / 86400, 1)
  {
  }

  /** Parsing recovers every whole second up to the end of year 9999, and rejects what is printed
      for a later instant. */
  lemma ParsePrinted(t: int)
    requires t >= 0
    ensures Parse(Rfc3339(t)) == if t < YEAR_10000 then Instant(t - t % SECOND) else Malformed
  {
    DayOfInstant(t);
    ParseOfSeconds(t / SECOND);
  }

  lemma ParseOfSeconds(secs: int)
    requires secs >= 0
    ensures Parse(Written(CivilOf(secs))) == if secs / 86400 < 3652059 then Instant(secs * SECOND) else Malformed
  {
    var c := CivilOf(secs);
    assert SecondsOf(c) == secs;
    ReadWritten(c);
    CivilYear(secs);
    YearBeforeTenThousand(secs / 86400);
  }

  lemma ReadsFields()
    ensures IsLeap(2024) && HasShape("2024-02-29T12:34:56Z") && Fields("2024-02-29T12:34:56Z") == Civil(2024, 2, 29, 12, 34, 56)
  {
  }

  /** The months have the lengths that they should, and days are counted from the first of year 1. */
  lemma MonthLengths(month: int, leap: bool)
    requires 1 <= month <= 12
    ensures DaysBeforeYear(1) == 0 && DaysBeforeMonth(1, leap) == 0
    ensures DaysBeforeMonth(month + 1, leap) - DaysBeforeMonth(month, leap) ==
      if month == 2 then (if leap then 29 else 28) else if month in {4, 6, 9, 11} then 30 else 31
  {
  }

  /** The form of the text, by the example of a leap day. */
  lemma ParseExample()
    ensures Parse("2024-02-29T12:34:56Z") == Instant(SecondsOf(Civil(2024, 2, 29, 12, 34, 56)) * SECOND)
  {
    ReadsFields();
    MonthLengths(2, true);
    hide HasShape, Fields, DaysBeforeMonth, SecondsOf;
  }

  /** The printed instant never contains the separator of the counter keys. */
  lemma PrintedHasNoBar(t: int)
    requires t >= 0
    ensures '|' !in Rfc3339(t)
  {
    WrittenHasNoBar(CivilOf(t / SECOND));
  }

  /** Whole seconds before year 10000 are told apart by their text. */
  lemma PrintInjective(t: int, t': int)
    requires 0 <= t < YEAR_10000 && 0 <= t' < YEAR_10000
    requires t % SECOND == 0 && t' % SECOND == 0
    ensures Rfc3339(t) == Rfc3339(t') <==> t == t'
  {
    hide Rfc3339, Parse;
    ParsePrinted(t);
    ParsePrinted(t');
  }
}
