/** The period vocabulary: months "2026-10", quarters "Q4-2026" or "2026-Q4", as inclusive date
    ranges. */
module Periods {
  import opened Wrappers

  datatype DateParts = DateParts(year: int, month: int, day: int)

  datatype PeriodRange = PeriodRange(start: DateParts, end: DateParts)

  predicate IsDigit(c: char) {
    '0' <= c <= '9'
  }

  function DigitOf(c: char): int {
    c as int - '0' as int
  }

  /** Four digits from position `i`. */
  predicate FourDigits(s: string, i: nat)
    requires i + 4 <= |s|
  {
    IsDigit(s[i]) && IsDigit(s[i + 1]) && IsDigit(s[i + 2]) && IsDigit(s[i + 3])
  }

  function NumberAt(s: string, i: nat): int
    requires i + 4 <= |s|
  {
    DigitOf(s[i]) * 1000 + DigitOf(s[i + 1]) * 100 + DigitOf(s[i + 2]) * 10 + DigitOf(s[i + 3])
  }

  predicate IsLeap(year: int) {
    year % 4 == 0 && (year % 100 != 0 || year % 400 == 0)
  }

  /** Days in a month of the proleptic Gregorian calendar. */
  function DaysInMonth(year: int, month: int): int {
    if month == 2 then (if IsLeap(year) then 29 else 28)
    else if month == 4 || month == 6 || month == 9 || month == 11 then 30
    else 31
  }

  /** The day before the first of the next month, by a UTC date constructor that reads the years 0 to 99
      as 1900 to 1999. */
  function LastDayOfMonth(year: int, month: int): int {
    DaysInMonth(if 0 <= year <= 99 then 1900 + year else year, month)
  }

  function MonthsRange(year: int, first: int, last: int): PeriodRange {
    PeriodRange(DateParts(year, first, 1), DateParts(year, last, LastDayOfMonth(year, last)))
  }

  function QuarterRange(year: int, q: int): PeriodRange {
    var first := (q - 1) * 3 + 1;
    MonthsRange(year, first, first + 2)
  }

  predicate IsMonthForm(s: string) {
    && |s| == 7 && FourDigits(s, 0) && s[4] == '-'
    && ((s[5] == '0' && '1' <= s[6] <= '9') || (s[5] == '1' && '0' <= s[6] <= '2'))
  }

  predicate IsQ(c: char) {
    c == 'Q' || c == 'q'
  }

  predicate IsQuarterFirst(s: string) {
    |s| == 7 && IsQ(s[0]) && '1' <= s[1] <= '4' && s[2] == '-' && FourDigits(s, 3)
  }

  predicate IsYearFirst(s: string) {
    |s| == 7 && FourDigits(s, 0) && s[4] == '-' && IsQ(s[5]) && '1' <= s[6] <= '4'
  }

  function ParsePeriod(s: string): (r: Option<PeriodRange>)
    ensures r.Some? <==> IsMonthForm(s) || IsQuarterFirst(s) || IsYearFirst(s)
    ensures r.Some? ==>
              && 0 <= r.value.start.year == r.value.end.year <= 9999
              && 1 <= r.value.start.month <= r.value.end.month <= 12
              && r.value.start.day == 1 && 28 <= r.value.end.day <= 31
  {
    if IsMonthForm(s) then
      var month := DigitOf(s[5]) * 10 + DigitOf(s[6]);
      Some(MonthsRange(NumberAt(s, 0), month, month))
    else if IsQuarterFirst(s) then Some(QuarterRange(NumberAt(s, 3), DigitOf(s[1])))
    else if IsYearFirst(s) then Some(QuarterRange(NumberAt(s, 0), DigitOf(s[6])))
    else None
  }

  function CompareDates(a: DateParts, b: DateParts): int {
    if a.year != b.year then a.year - b.year
    else if a.month != b.month then a.month - b.month
    else a.day - b.day
  }

  predicate PlainDate(d: DateParts) {
    1 <= d.month <= 12 && 1 <= d.day <= 31
  }

  /** The numeric sort key of a date. */
  function DateKey(d: DateParts): int {
    d.year * 10_000 + d.month * 100 + d.day
  }

  /** Sorting by the key is sorting by the calendar. */
  lemma KeyAgreesWithCompareDates(a: DateParts, b: DateParts)
    requires PlainDate(a) && PlainDate(b)
    ensures DateKey(a) < DateKey(b) <==> CompareDates(a, b) < 0
    ensures DateKey(a) == DateKey(b) <==> CompareDates(a, b) == 0
    ensures DateKey(a) == DateKey(b) <==> a == b
  {
  }

  /** The last day is the calendar's, except for February of the year 0000, which is read as 1900. */
  lemma LastDayIsCalendarExactly(year: int, month: int)
    requires 0 <= year <= 9999 && 1 <= month <= 12
    ensures LastDayOfMonth(year, month) == DaysInMonth(year, month) <==> !(year == 0 && month == 2)
  {
  }

  // ---------------------------------------------------------------------------------------------
  // Printing and parsing back
  // ---------------------------------------------------------------------------------------------

  function DigitChar(d: int): char
    requires 0 <= d <= 9
  {
    (d + '0' as int) as char
  }

  lemma DigitsOfYear(year: int)
    requires 0 <= year <= 9999
    ensures 0 <= year / 1000 <= 9
    ensures year / 1000 * 1000 + year / 100 % 10 * 100 + year / 10 % 10 * 10 + year % 10 == year
  {
    var a := year / 10;
    var b := year / 100;
    var c := year / 1000;
    assert b == a / 10 && c == b / 10;
    assert year == a * 10 + year % 10 && a == b * 10 + a % 10 && b == c * 10 + b % 10;
  }

  lemma CharOfDigit(d: int)
    requires 0 <= d <= 9
    ensures IsDigit(DigitChar(d)) && DigitOf(DigitChar(d)) == d
  {
  }

  function PrintYear(year: int): (s: string)
    requires 0 <= year <= 9999
    ensures |s| == 4 && FourDigits(s, 0) && NumberAt(s, 0) == year
  {
    DigitsOfYear(year);
    CharOfDigit(year / 1000);
    CharOfDigit(year / 100 % 10);
    CharOfDigit(year / 10 % 10);
    CharOfDigit(year % 10);
    [DigitChar(year / 1000), DigitChar(year / 100 % 10), DigitChar(year / 10 % 10), DigitChar(year % 10)]
  }

  function PrintMonth(year: int, month: int): string
    requires 0 <= year <= 9999 && 1 <= month <= 12
  {
    PrintYear(year) + "-" + [DigitChar(month / 10), DigitChar(month % 10)]
  }

  function PrintQuarter(year: int, q: int): string
    requires 0 <= year <= 9999 && 1 <= q <= 4
  {
    "Q" + [DigitChar(q)] + "-" + PrintYear(year)
  }

  function PrintYearQuarter(year: int, q: int): string
    requires 0 <= year <= 9999 && 1 <= q <= 4
  {
    PrintYear(year) + "-Q" + [DigitChar(q)]
  }

  /** Parsing inverts printing, and both spellings of a quarter mean the same range. */
  lemma ParseInvertsPrint(year: int, month: int, q: int)
    requires 0 <= year <= 9999 && 1 <= month <= 12 && 1 <= q <= 4
    ensures ParsePeriod(PrintMonth(year, month)) == Some(MonthsRange(year, month, month))
    ensures ParsePeriod(PrintQuarter(year, q)) == Some(QuarterRange(year, q))
    ensures ParsePeriod(PrintYearQuarter(year, q)) == Some(QuarterRange(year, q))
  {
    var y := PrintYear(year);
    var m := PrintMonth(year, month);
    assert m[0] == y[0] && m[1] == y[1] && m[2] == y[2] && m[3] == y[3];
    assert m[5] == DigitChar(month / 10) && m[6] == DigitChar(month % 10);
    var qf := PrintQuarter(year, q);
    assert qf[3] == y[0] && qf[4] == y[1] && qf[5] == y[2] && qf[6] == y[3] && qf[1] == DigitChar(q) && qf[2] == '-';
    var yf := PrintYearQuarter(year, q);
    assert yf[0] == y[0] && yf[1] == y[1] && yf[2] == y[2] && yf[3] == y[3] && yf[4] == '-' && yf[5] == 'Q' &&
        yf[6] == DigitChar(q);
  }

  /** The day after, by the calendar. */
  function NextDay(d: DateParts): DateParts {
    if d.day < DaysInMonth(d.year, d.month) then DateParts(d.year, d.month, d.day + 1)
    else if d.month < 12 then DateParts(d.year, d.month + 1, 1)
    else DateParts(d.year + 1, 1, 1)
  }

  /** A quarter is exactly its three months, end to end, except for the first quarter of the year 0000. */
  lemma QuarterIsItsMonths(year: int, q: int)
    requires 0 <= year <= 9999 && 1 <= q <= 4
    ensures var first := (q - 1) * 3 + 1;
            var m0 := MonthsRange(year, first, first);
            var m1 := MonthsRange(year, first + 1, first + 1);
            var m2 := MonthsRange(year, first + 2, first + 2);
            && QuarterRange(year, q).start == m0.start && m2.end == QuarterRange(year, q).end
            && (NextDay(m0.end) == m1.start && NextDay(m1.end) == m2.start <==> !(year == 0 && q == 1))
  {
    var first := (q - 1) * 3 + 1;
    LastDayIsCalendarExactly(year, first);
    LastDayIsCalendarExactly(year, first + 1);
  }
}
