/** Calendar dates and UTC instants of the years 0000 to 9999, with the two conversions the
    lifecycle translators use: `parseS3Date` and the timestamp layout of `time.Time.Format`
    (the grammar is the `full-date` of section 5.6 of RFC 3339; month lengths follow section
    5.7 and the leap-year rule of Appendix C). */
module CivilDate {
  import opened Wrappers

  datatype Date = Date(year: int, month: int, day: int)

  predicate IsLeapYear(year: int) {
    year % 4 == 0 && (year % 100 != 0 || year % 400 == 0)
  }

  function DaysIn(month: int, year: int): int {
    if month == 2 then (if IsLeapYear(year) then 29 else 28)
    else if month in {4, 6, 9, 11} then 30
    else 31
  }

  predicate ValidDate(d: Date) {
    0 <= d.year <= 9999 && 1 <= d.month <= 12 && 1 <= d.day <= DaysIn(d.month, d.year)
  }

  type CalendarDate = d: Date | ValidDate(d) witness Date(1, 1, 1)

  datatype RawInstant = Instant(date: CalendarDate, hour: int, minute: int, second: int, nano: int)

  predicate ValidInstant(t: RawInstant) {
    0 <= t.hour < 24 && 0 <= t.minute < 60 && 0 <= t.second < 60 && 0 <= t.nano < 1_000_000_000
  }

  /** A `time.Time` in UTC. */
  type Instant = t: RawInstant | ValidInstant(t) witness Instant(Date(1, 1, 1), 0, 0, 0, 0)

  function Midnight(d: CalendarDate): Instant {
    Instant(d, 0, 0, 0, 0)
  }

  predicate IsMidnight(t: Instant) {
    t.hour == 0 && t.minute == 0 && t.second == 0 && t.nano == 0
  }

  /** The zero `time.Time`: `IsZero` holds of this instant only, so it doubles as "unset". */
  const ZERO_TIME: Instant := Midnight(Date(1, 1, 1))

  predicate Earlier(a: Instant, b: Instant) {
    LexicographicLess([a.date.year, a.date.month, a.date.day, a.hour, a.minute, a.second, a.nano],
                      [b.date.year, b.date.month, b.date.day, b.hour, b.minute, b.second, b.nano])
  }

  predicate LexicographicLess(a: seq<int>, b: seq<int>)
    requires |a| == |b|
  {
    |a| > 0 && (a[0] < b[0] || (a[0] == b[0] && LexicographicLess(a[1..], b[1..])))
  }

  // Printing

  function Digit(n: int): char
    requires 0 <= n <= 9
  {
    "0123456789"[n]
  }

  function Print2(n: int): (s: string)
    requires 0 <= n <= 99
  {
    [Digit(n / 10), Digit(n % 10)]
  }

  function Print4(n: int): string
    requires 0 <= n <= 9999
  {
    Print2(n / 100) + Print2(n % 100)
  }

  function FormatDate(d: CalendarDate): string {
    Print4(d.year) + "-" + Print2(d.month) + "-" + Print2(d.day)
  }

  /** `Format("2006-01-02T15:04:05.000Z")`; the fraction is cut, not rounded. */
  function FormatTimestamp(t: Instant): string {
    FormatDate(t.date) + "T" + Print2(t.hour) + ":" + Print2(t.minute) + ":" + Print2(t.second)
    + "." + [Digit(t.nano / 100_000_000)] + Print2(t.nano / 1_000_000 % 100) + "Z"
  }

  // Parsing

  /** `formatDateS3toGCS`: the first ten bytes, or the whole of a shorter string. */
  function TruncateDate(s: string): string {
    if |s| >= 10 then s[..10] else s
  }

  predicate IsDigit(c: char) {
    '0' <= c <= '9'
  }

  predicate AllDigits(s: string) {
    forall i :: 0 <= i < |s| ==> IsDigit(s[i])
  }

  /** Value of a string of decimal digits. */
  function Number(s: string): nat
    requires AllDigits(s)
  {
    if s == "" then 0
    else Number(s[..|s| - 1]) * 10 + (s[|s| - 1] as int - '0' as int)
  }

  /** `time.Parse("2006-01-02", s)`: four, two and two digits and nothing after them. */
  function ParseLayout(s: string): Option<CalendarDate> {
    if |s| == 10 && AllDigits(s[..4]) && s[4] == '-' && AllDigits(s[5..7]) && s[7] == '-' && AllDigits(s[8..]) then
      var d := Date(Number(s[..4]), Number(s[5..7]), Number(s[8..]));
      if ValidDate(d) then Some(d) else None
    else
      None
  }

  /** `parseS3Date`. */
  function ParseS3Date(s: string): Option<CalendarDate> {
    ParseLayout(TruncateDate(s))
  }

  // The two directions undo each other

  lemma {:induction false} Number2(s: string)
    requires |s| == 2 && AllDigits(s)
    ensures Number(s) == (s[0] as int - '0' as int) * 10 + (s[1] as int - '0' as int)
    ensures 0 <= Number(s) <= 99 && Print2(Number(s)) == s
  {
    var a, b := s[0] as int - '0' as int, s[1] as int - '0' as int;
    assert s[..1][..0] == "";
    assert Number(s[..1]) == a;
    assert Number(s) / 10 == a && Number(s) % 10 == b;
    DigitOf(s[0]);
    DigitOf(s[1]);
  }

  lemma DigitOf(c: char)
    requires IsDigit(c)
    ensures Digit(c as int - '0' as int) == c
  {
  }

  lemma DigitValue(n: int)
    requires 0 <= n <= 9
    ensures IsDigit(Digit(n)) && Digit(n) as int - '0' as int == n
  {
    DigitOf(('0' as int + n) as char);
  }

  lemma Print2Number(n: int)
    requires 0 <= n <= 99
    ensures AllDigits(Print2(n)) && Number(Print2(n)) == n
  {
    DigitValue(n / 10);
    DigitValue(n % 10);
    Number2(Print2(n));
  }

  lemma NumberConcat2(a: string, b: string)
    requires AllDigits(a) && AllDigits(b) && |b| == 2
    ensures AllDigits(a + b) && Number(a + b) == Number(a) * 100 + Number(b)
  {
    var s := a + b;
    assert s[..|s| - 1] == a + b[..1];
    assert (a + b[..1])[..|a|] == a;
    Number2(b);
  }

  lemma Print4Number(n: int)
    requires 0 <= n <= 9999
    ensures AllDigits(Print4(n)) && Number(Print4(n)) == n
  {
    Print2Number(n / 100);
    Print2Number(n % 100);
    NumberConcat2(Print2(n / 100), Print2(n % 100));
  }

  lemma {:induction false} Number4Print(s: string)
    requires |s| == 4 && AllDigits(s)
    ensures 0 <= Number(s) <= 9999 && Print4(Number(s)) == s
  {
    var a, b := s[..2], s[2..];
    assert s == a + b;
    NumberConcat2(a, b);
    Number2(a);
    Number2(b);
    assert Number(s) / 100 == Number(a) && Number(s) % 100 == Number(b);
  }

  lemma ParseFormattedDate(d: CalendarDate)
    ensures ParseLayout(FormatDate(d)) == Some(d)
  {
    var s := FormatDate(d);
    assert s[..4] == Print4(d.year);
    assert s[5..7] == Print2(d.month);
    assert s[8..] == Print2(d.day);
    Print4Number(d.year);
    Print2Number(d.month);
    Print2Number(d.day);
  }

  /** Printing any instant and parsing it back keeps the calendar date and drops the time of day. */
  lemma {:induction false} ParseFormattedTimestamp(t: Instant)
    ensures ParseS3Date(FormatTimestamp(t)) == Some(t.date)
  {
    assert TruncateDate(FormatTimestamp(t)) == FormatDate(t.date);
    ParseFormattedDate(t.date);
  }

  lemma TruncatePrefix(s: string, p: string)
    requires |p| == 10
    ensures TruncateDate(s) == p <==> p <= s
  {
    assert |s| >= 10 && p <= s ==> s[..10] == p;
  }

  lemma LayoutPrinted(p: string, d: CalendarDate)
    requires ParseLayout(p) == Some(d)
    ensures p == FormatDate(d)
  {
    Number4Print(p[..4]);
    Number2(p[5..7]);
    Number2(p[8..]);
    assert p == p[..4] + [p[4]] + p[5..7] + [p[7]] + p[8..];
  }

  /** A string parses exactly when it starts with the print of a calendar date, and then that date is
      the result: the parser accepts no other spelling, and whatever follows the date is ignored. */
  lemma ParsesIffPrinted(s: string, d: CalendarDate)
    ensures ParseS3Date(s) == Some(d) <==> FormatDate(d) <= s
  {
    TruncatePrefix(s, FormatDate(d));
    if ParseS3Date(s) == Some(d) {
      LayoutPrinted(TruncateDate(s), d);
    }
    if FormatDate(d) <= s {
      ParseFormattedDate(d);
    }
  }

  // What is printed, byte by byte

  /** Two bytes that spell a number. */
  predicate Spells(a: char, b: char, n: int) {
    '0' <= a <= '9' && '0' <= b <= '9' && n == 10 * (a as int - 48) + (b as int - 48)
  }

  lemma Print2Spells(n: int)
    requires 0 <= n <= 99
    ensures |Print2(n)| == 2 && Spells(Print2(n)[0], Print2(n)[1], n)
  {
    DigitValue(n / 10);
    DigitValue(n % 10);
  }

  /** A date is printed as four digits of year, two of month and two of day, with hyphens. */
  lemma DateText(d: CalendarDate)
    ensures var s := FormatDate(d);
            && |s| == 10 && s[4] == '-' && s[7] == '-'
            && Spells(s[0], s[1], d.year / 100) && Spells(s[2], s[3], d.year % 100)
            && Spells(s[5], s[6], d.month) && Spells(s[8], s[9], d.day)
  {
    Print2Spells(d.year / 100);
    Print2Spells(d.year % 100);
    Print2Spells(d.month);
    Print2Spells(d.day);
  }

  /** A timestamp is the date, then the time of day to the millisecond, cut and not rounded. */
  lemma TimestampText(t: Instant)
    ensures var s := FormatTimestamp(t);
            && |s| == 24 && FormatDate(t.date) <= s
            && s[10] == 'T' && s[13] == ':' && s[16] == ':' && s[19] == '.' && s[23] == 'Z'
            && Spells(s[11], s[12], t.hour) && Spells(s[14], s[15], t.minute) && Spells(s[17], s[18], t.second)
            && Spells('0', s[20], t.nano / 100_000_000) && Spells(s[21], s[22], t.nano / 1_000_000 % 100)
  {
    DateText(t.date);
    Print2Spells(t.hour);
    Print2Spells(t.minute);
    Print2Spells(t.second);
    Print2Spells(t.nano / 1_000_000 % 100);
    DigitValue(t.nano / 100_000_000);
  }

  /** Every date the Gregorian calendar has in these years, and no other. */
  lemma CalendarDates(year: int, month: int, day: int)
    ensures ValidDate(Date(year, month, day)) <==>
              0 <= year <= 9999 && 1 <= day && (
                || (month in {1, 3, 5, 7, 8, 10, 12} && day <= 31)
                || (month in {4, 6, 9, 11} && day <= 30)
                || (month == 2 && day <= 28)
                || (month == 2 && day == 29 && (year % 400 == 0 || (year % 4 == 0 && year % 100 != 0))))
  {
  }
}
