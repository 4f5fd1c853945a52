/**
 * The two civil-date algorithms: the printer of capture times and the parser the
 * learner uses, in separate crates, against the Gregorian calendar itself.
 */
module Calendar {
  import opened Wrappers
  import opened Paths

  datatype Date = Date(year: int, month: int, day: int)

  // ----- the calendar as a reference

  predicate Leap(year: int) {
    year % 4 == 0 && (year % 100 != 0 || year % 400 == 0)
  }

  function DaysIn(year: int, month: int): int {
    if month == 2 then (if Leap(year) then 29 else 28)
    else if month in {4, 6, 9, 11} then 30
    else 31
  }

  predicate ValidDate(date: Date) {
    1 <= date.month <= 12 && 1 <= date.day <= DaysIn(date.year, date.month)
  }

  function Tomorrow(date: Date): Date {
    if date.day < DaysIn(date.year, date.month) then date.(day := date.day + 1)
    else if date.month < 12 then Date(date.year, date.month + 1, 1)
    else Date(date.year + 1, 1, 1)
  }

  // ----- `civil`

  const ERA := 146097
  const EPOCH := 719468

  function YearOfEra(doe: int): int {
    (doe - doe / 1460 + doe / 36524 - doe / 146096) / 365
  }

  /** Days before a year of the era, whose years start in March. */
  function YearStart(yoe: int): int {
    365 * yoe + yoe / 4 - yoe / 100
  }

  function MonthStart(mp: int): int {
    (153 * mp + 2) / 5
  }

  /** The date half of `civil`, for a day counted from the epoch. */
  function Civil(days: int): Date {
    var z := days + EPOCH;
    var era := z / ERA;
    var doe := z % ERA;
    var yoe := YearOfEra(doe);
    var doy := doe - YearStart(yoe);
    var mp := (5 * doy + 2) / 153;
    var m := if mp < 10 then mp + 3 else mp - 9;
    Date(yoe + era * 400 + (if m <= 2 then 1 else 0), m, doy - MonthStart(mp) + 1)
  }

  /** A day of the era as centuries, four-year groups, years and days, counted from its first March. */
  lemma DayOfEra(doe: int) returns (c: int, q: int, k: int, s: int)
    requires 0 <= doe < ERA
    ensures doe == 36524 * c + 1461 * q + 365 * k + s
    ensures 0 <= c < 4 && 0 <= q < 25 && 0 <= k < 4 && 0 <= s < (if k == 3 then 366 else 365)
    ensures k == 3 && q == 24 && c < 3 ==> s < 365
  {
    c := if doe == 146096 then 3 else doe / 36524;
    var r := doe - 36524 * c;
    q := r / 1461;
    var t := r - 1461 * q;
    k := if t == 1460 then 3 else t / 365;
    s := t - 365 * k;
  }

  lemma YearOfSplitDay(c: int, q: int, k: int, s: int)
    requires 0 <= c < 4 && 0 <= q < 25 && 0 <= k < 4 && 0 <= s < (if k == 3 then 366 else 365)
    requires k == 3 && q == 24 && c < 3 ==> s < 365
    ensures YearOfEra(36524 * c + 1461 * q + 365 * k + s) == 100 * c + 4 * q + k
  {
    var doe := 36524 * c + 1461 * q + 365 * k + s;
    var e := if 24 * c + q + 365 * k + s >= 1460 then 1 else 0;
    assert doe / 1460 == 25 * c + q + e;
    assert doe / 36524 - doe / 146096 == c;
    assert 0 <= s - e < 365;
    assert doe - doe / 1460 + doe / 36524 - doe / 146096 == 365 * (100 * c + 4 * q + k) + (s - e);
  }

  lemma YearStartOfSplit(c: int, q: int, k: int)
    requires 0 <= c < 4 && 0 <= q < 25 && 0 <= k < 4
    ensures YearStart(100 * c + 4 * q + k) == 36524 * c + 1461 * q + 365 * k
  {
    assert (100 * c + 4 * q + k) / 4 == 25 * c + q;
    assert (100 * c + 4 * q + k) / 100 == c;
  }

  /** A year of the era that begins in March holds the February of the next one. */
  function YearLength(yoe: int): int {
    if Leap(yoe + 1) then 366 else 365
  }

  /** The day lies in the year found for it. */
  lemma YearOfEraIsRight(doe: int)
    requires 0 <= doe < ERA
    ensures var yoe := YearOfEra(doe);
            0 <= yoe < 400 && YearStart(yoe) <= doe < YearStart(yoe) + YearLength(yoe)
  {
    var c, q, k, s := DayOfEra(doe);
    YearOfSplitDay(c, q, k, s);
    YearStartOfSplit(c, q, k);
    assert (100 * c + 4 * q + k + 1) % 4 == 0 <==> k == 3;
    assert k == 3 ==> ((100 * c + 4 * q + k + 1) % 100 == 0 <==> q == 24);
    assert k == 3 && q == 24 ==> ((100 * c + 4 * q + k + 1) % 400 == 0 <==> c == 3);
  }

  /** The month found for a day of the year, and how long it is. */
  lemma MonthIsRight(doy: int)
    requires 0 <= doy < 366
    ensures var mp := (5 * doy + 2) / 153;
            0 <= mp < 12 && MonthStart(mp) <= doy < MonthStart(mp + 1)
  {
  }

  lemma MonthLengths(mp: int)
    requires 0 <= mp < 11
    ensures MonthStart(mp + 1) - MonthStart(mp) == DaysIn(2001, if mp < 10 then mp + 3 else mp - 9)
    ensures MonthStart(11) == 337
  {
  }

  // ----- the parser's day count

  /** First day of the March-based year `y`, counted from the first March of year 0. */
  function MarchStart(y: int): int {
    y / 400 * ERA + YearStart(y % 400)
  }

  /** The day number of `iso_to_epoch`, with the division floored. */
  function DaysOf(date: Date): int {
    var y := if date.month <= 2 then date.year - 1 else date.year;
    var mp := if date.month <= 2 then date.month + 9 else date.month - 3;
    MarchStart(y) + MonthStart(mp) + date.day - 1 - EPOCH
  }

  lemma Shifted4(x: int, k: int)
    ensures (x + 4 * k) % 4 == x % 4
  {
    assert x + 4 * k == 4 * (x / 4 + k) + x % 4;
  }

  lemma Shifted100(x: int, k: int)
    ensures (x + 100 * k) % 100 == x % 100
  {
    assert x + 100 * k == 100 * (x / 100 + k) + x % 100;
  }

  lemma Shifted400(x: int, k: int)
    ensures (x + 400 * k) % 400 == x % 400
  {
    assert x + 400 * k == 400 * (x / 400 + k) + x % 400;
  }

  lemma LeapRepeats(era: int, yoe: int)
    ensures Leap(yoe + era * 400) == Leap(yoe)
  {
    Shifted4(yoe, 100 * era);
    Shifted100(yoe, 4 * era);
    Shifted400(yoe, era);
  }

  lemma EraOf(era: int, yoe: int)
    requires 0 <= yoe < 400
    ensures (yoe + era * 400) / 400 == era && (yoe + era * 400) % 400 == yoe
  {
  }

  lemma YearLengths(yoe: int)
    requires 0 <= yoe < 400
    ensures YearStart(yoe + 1) == YearStart(yoe) + YearLength(yoe) - (if yoe == 399 then 1 else 0)
  {
    var c, q, k := yoe / 100, yoe % 100 / 4, yoe % 4;
    assert yoe == 100 * c + 4 * q + k;
    YearStartOfSplit(c, q, k);
    assert (yoe + 1) / 4 == 25 * c + q + (if k == 3 then 1 else 0);
    assert (yoe + 1) / 100 == c + (if q == 24 && k == 3 then 1 else 0);
    assert yoe == 399 <==> q == 24 && k == 3 && c == 3;
    assert Leap(yoe + 1) <==> k == 3 && (q == 24 ==> c == 3);
  }

  /** Each March-based year is as long as the February in it makes it. */
  lemma MarchYears(y: int)
    ensures MarchStart(y + 1) == MarchStart(y) + (if Leap(y + 1) then 366 else 365)
  {
    var era, yoe := y / 400, y % 400;
    LeapRepeats(era, yoe + 1);
    YearLengths(yoe);
    EraOf(era, yoe);
    if yoe == 399 { EraOf(era + 1, 0); } else { EraOf(era, yoe + 1); }
  }

  lemma MarchStartOf(era: int, yoe: int)
    requires 0 <= yoe < 400
    ensures MarchStart(yoe + era * 400) == era * ERA + YearStart(yoe)
    ensures YearLength(yoe) == if Leap(yoe + era * 400 + 1) then 366 else 365
  {
    EraOf(era, yoe);
    LeapRepeats(era, yoe + 1);
  }

  /** The date found for a day of the era, as a year and a day of that year. */
  lemma CivilParts(days: int) returns (y: int, doy: int)
    ensures MarchStart(y) + doy == days + EPOCH && 0 <= doy < (if Leap(y + 1) then 366 else 365)
    ensures var mp := (5 * doy + 2) / 153;
            && 0 <= mp < 12
            && Civil(days) == Date(y + (if mp < 10 then 0 else 1), if mp < 10 then mp + 3 else mp - 9, doy - MonthStart(mp) + 1)
  {
    var era, doe := (days + EPOCH) / ERA, (days + EPOCH) % ERA;
    YearOfEraIsRight(doe);
    MarchStartOf(era, YearOfEra(doe));
    y, doy := YearOfEra(doe) + era * 400, doe - YearStart(YearOfEra(doe));
    MonthIsRight(doy);
  }

  /** `civil` always prints a valid date of the calendar, and the parser's day count inverts it. */
  lemma CivilIsValidAndInverted(days: int)
    ensures ValidDate(Civil(days)) && DaysOf(Civil(days)) == days
  {
    var y, doy := CivilParts(days);
    MonthIsRight(doy);
    var mp := (5 * doy + 2) / 153;
    if mp < 11 { MonthLengths(mp); } else { MonthLengths(0); }
  }

  lemma NewYearIsNextDay(year: int)
    ensures DaysOf(Date(year + 1, 1, 1)) == DaysOf(Date(year, 12, 31)) + 1
  {
  }

  lemma NewMonthIsNextDay(year: int, month: int)
    requires 1 <= month < 12
    ensures DaysOf(Date(year, month + 1, 1)) == DaysOf(Date(year, month, DaysIn(year, month))) + 1
  {
    if month == 2 {
      MarchYears(year - 1);
      MonthLengths(0);
    } else {
      MonthLengths(if month < 3 then month + 9 else month - 3);
    }
  }

  /** The next day of the calendar has the next number. */
  lemma TomorrowIsNextDay(date: Date)
    requires ValidDate(date)
    ensures ValidDate(Tomorrow(date)) && DaysOf(Tomorrow(date)) == DaysOf(date) + 1
  {
    if date.day == DaysIn(date.year, date.month) {
      if date.month < 12 { NewMonthIsNextDay(date.year, date.month); } else { NewYearIsNextDay(date.year); }
    }
  }

  /** Calendar order of dates. */
  predicate Earlier(a: Date, b: Date) {
    || a.year < b.year
    || (a.year == b.year && a.month < b.month)
    || (a.year == b.year && a.month == b.month && a.day < b.day)
  }

  lemma {:induction false} EarlierHasSmallerNumber(a: Date, b: Date)
    requires ValidDate(a) && ValidDate(b) && Earlier(a, b)
    ensures DaysOf(a) < DaysOf(b)
    decreases b.year - a.year, 12 - a.month, 31 - a.day
  {
    TomorrowIsNextDay(a);
    if Tomorrow(a) != b { EarlierHasSmallerNumber(Tomorrow(a), b); }
  }

  lemma SameNumberSameDate(a: Date, b: Date)
    requires ValidDate(a) && ValidDate(b) && DaysOf(a) == DaysOf(b)
    ensures a == b
  {
    if Earlier(a, b) { EarlierHasSmallerNumber(a, b); }
    if Earlier(b, a) { EarlierHasSmallerNumber(b, a); }
  }

  /** Any valid date is what `civil` prints for its number. */
  lemma CivilOf(date: Date)
    requires ValidDate(date)
    ensures Civil(DaysOf(date)) == date
  {
    var days := DaysOf(date);
    CivilIsValidAndInverted(days);
    SameNumberSameDate(Civil(days), date);
  }

  lemma CivilOfTomorrow(date: Date)
    requires ValidDate(date)
    ensures Civil(DaysOf(date) + 1) == Tomorrow(date)
  {
    TomorrowIsNextDay(date);
    CivilOf(Tomorrow(date));
  }

  lemma EpochDay()
    ensures DaysOf(Date(1970, 1, 1)) == 0
    ensures DaysOf(Date(10000, 1, 1)) == LIMIT / 86400
  {
  }

  /** `civil` is the calendar: the epoch is the first of January 1970, and each day is followed by the next. */
  lemma CivilIsTheCalendar(days: int)
    ensures Civil(0) == Date(1970, 1, 1)
    ensures Civil(days + 1) == Tomorrow(Civil(days))
  {
    EpochDay();
    CivilOf(Date(1970, 1, 1));
    CivilIsValidAndInverted(days);
    CivilOfTomorrow(Civil(days));
  }

  lemma CivilKeepsOrder(a: int, b: int)
    requires a < b
    ensures Earlier(Civil(a), Civil(b))
  {
    CivilIsValidAndInverted(a);
    CivilIsValidAndInverted(b);
    NumberKeepsOrder(Civil(a), Civil(b));
  }

  lemma NumberKeepsOrder(a: Date, b: Date)
    requires ValidDate(a) && ValidDate(b) && DaysOf(a) < DaysOf(b)
    ensures Earlier(a, b)
  {
    if Earlier(b, a) { EarlierHasSmallerNumber(b, a); }
  }

  /** First second of year 10000. */
  const LIMIT := 253_402_300_800

  lemma YearsToLimit(days: int)
    ensures days >= 0 ==> Civil(days).year >= 1970
    ensures Civil(days).year < 10000 <==> days < LIMIT / 86400
  {
    CivilIsValidAndInverted(days);
    EpochDay();
    YearOfNumber(Civil(days), Date(1970, 1, 1));
    YearOfNumber(Civil(days), Date(10000, 1, 1));
  }

  lemma YearOfNumber(date: Date, newYear: Date)
    requires ValidDate(date) && ValidDate(newYear) && newYear.month == 1 && newYear.day == 1
    ensures date.year < newYear.year <==> DaysOf(date) < DaysOf(newYear)
  {
    if Earlier(date, newYear) { EarlierHasSmallerNumber(date, newYear); }
    if Earlier(newYear, date) { EarlierHasSmallerNumber(newYear, date); }
  }

  // ----- numerals

  function Digit(d: nat): char
    requires d < 10
  {
    ['0', '1', '2', '3', '4', '5', '6', '7', '8', '9'][d]
  }

  /** Decimal digits, zero-padded to at least `width`. */
  function Numeral(n: nat, width: nat): string
    decreases n, width
  {
    if n < 10 && width <= 1 then [Digit(n)]
    else Numeral(n / 10, if width > 0 then width - 1 else 0) + [Digit(n % 10)]
  }

  function Pow10(k: nat): nat {
    if k == 0 then 1 else 10 * Pow10(k - 1)
  }

  predicate IsDigit(c: char) {
    '0' <= c <= '9'
  }

  function DigitsValue(s: string): Option<nat> {
    if s == [] then Some(0)
    else
      var n := |s| - 1;
      match DigitsValue(s[..n])
      case None => None
      case Some(v) => if IsDigit(s[n]) then Some(10 * v + (s[n] as int - '0' as int)) else None
  }

  /** `parse::<i64>` on a few characters: an optional sign and at least one digit. */
  function ParseInt(s: string): Option<int> {
    if s == [] then None
    else if s[0] in {'+', '-'} then
      if |s| == 1 || DigitsValue(s[1..]).None? then None
      else
        var v: int := DigitsValue(s[1..]).value;
        Some(if s[0] == '-' then -v else v)
    else match DigitsValue(s)
      case None => None
      case Some(v) => Some(v)
  }

  lemma DigitReads(d: nat)
    requires d < 10
    ensures IsDigit(Digit(d)) && Digit(d) as int - '0' as int == d
  {
  }

  lemma {:induction false} NumeralReads(n: nat, width: nat)
    ensures DigitsValue(Numeral(n, width)) == Some(n) && Numeral(n, width) != [] && |Numeral(n, width)| >= width
    ensures forall i :: 0 <= i < |Numeral(n, width)| ==> IsDigit(Numeral(n, width)[i])
    decreases n, width
  {
    DigitReads(n % 10);
    var numeral := Numeral(n, width);
    if n < 10 && width <= 1 {
      assert numeral == [] + [Digit(n % 10)] && DigitsValue(numeral[..0]) == Some(0);
    } else {
      var rest := Numeral(n / 10, if width > 0 then width - 1 else 0);
      NumeralReads(n / 10, if width > 0 then width - 1 else 0);
      assert numeral[..|numeral| - 1] == rest;
    }
  }

  /** A numeral is exactly as wide as asked when the number fits, and wider otherwise. */
  lemma {:induction false} NumeralWidth(n: nat, width: nat)
    requires width > 0
    ensures |Numeral(n, width)| == width <==> n < Pow10(width)
    decreases width
  {
    if width == 1 {
      if n >= 10 { NumeralReads(n / 10, 0); }
    } else {
      NumeralWidth(n / 10, width - 1);
    }
  }

  lemma {:induction false} NumeralParses(n: nat, width: nat)
    ensures ParseInt(Numeral(n, width)) == Some(n)
  {
    NumeralReads(n, width);
    assert IsDigit(Numeral(n, width)[0]);
  }

  lemma {:induction false} LessExtends(a: string, b: string, x: string, y: string)
    requires |a| == |b| && Less(a, b)
    ensures Less(a + x, b + y)
  {
    if a[0] == b[0] {
      LessExtends(a[1..], b[1..], x, y);
      assert (a + x)[1..] == a[1..] + x && (b + y)[1..] == b[1..] + y;
    }
  }

  lemma {:induction false} LessAfter(a: string, x: string, y: string)
    requires Less(x, y)
    ensures Less(a + x, a + y)
  {
    if a == [] {
      assert a + x == x && a + y == y;
    } else {
      LessAfter(a[1..], x, y);
      assert (a + x)[1..] == a[1..] + x && (a + y)[1..] == a[1..] + y;
    }
  }

  lemma DigitsKeepOrder(m: nat, n: nat)
    requires m < n < 10
    ensures Less([Digit(m)], [Digit(n)])
  {
  }

  lemma LastDigits(m: nat, n: nat)
    requires m < n
    ensures m / 10 < n / 10 || (m / 10 == n / 10 && m % 10 < n % 10)
  {
  }

  lemma {:induction false} NumeralsKeepOrder(m: nat, n: nat, width: nat)
    requires m < n < Pow10(width) && width > 0
    ensures Less(Numeral(m, width), Numeral(n, width))
    decreases width
  {
    LastDigits(m, n);
    if width == 1 {
      DigitsKeepOrder(m, n);
    } else {
      var a, b := Numeral(m / 10, width - 1), Numeral(n / 10, width - 1);
      if m / 10 < n / 10 {
        NumeralWidth(m / 10, width - 1);
        NumeralWidth(n / 10, width - 1);
        NumeralsKeepOrder(m / 10, n / 10, width - 1);
        LessExtends(a, b, [Digit(m % 10)], [Digit(n % 10)]);
      } else {
        DigitsKeepOrder(m % 10, n % 10);
        LessAfter(a, [Digit(m % 10)], [Digit(n % 10)]);
      }
    }
  }

  // ----- timestamps

  /** One number of a timestamp and the character printed after it. */
  datatype Field = Field(value: nat, width: nat, mark: char)

  /** The fields from `i` on, as a format string prints them. */
  function Printed(fields: seq<Field>, i: nat): string
    requires i <= |fields|
    decreases |fields| - i
  {
    if i == |fields| then [] else Numeral(fields[i].value, fields[i].width) + [fields[i].mark] + Printed(fields, i + 1)
  }

  /** What `iso_at` sees of a clock reading: the milliseconds since the epoch, and none before it. */
  function Millis(nanos: int): nat {
    if nanos < 0 then 0 else nanos / 1_000_000
  }

  datatype Clock = Clock(year: nat, month: nat, day: nat, hour: nat, minute: nat, second: nat, milli: nat)

  function ClockOf(date: Date, rem: nat, milli: nat): Clock
    requires ValidDate(date) && date.year >= 0
  {
    Clock(date.year, date.month, date.day, rem / 3600, rem % 3600 / 60, rem % 60, milli)
  }

  /** `civil` on whole seconds, and the milliseconds beside it. */
  function ClockAt(millis: nat): Clock {
    var secs := millis / 1000;
    CivilIsValidAndInverted(secs / 86400); YearsToLimit(secs / 86400);
    ClockOf(Civil(secs / 86400), secs % 86400, millis % 1000)
  }

  /** The numbers and marks of the format `YYYY-MM-DDThh:mm:ss.mmmZ`. */
  function Fields(c: Clock): seq<Field> {
    [Field(c.year, 4, '-'), Field(c.month, 2, '-'), Field(c.day, 2, 'T'),
     Field(c.hour, 2, ':'), Field(c.minute, 2, ':'), Field(c.second, 2, '.'), Field(c.milli, 3, 'Z')]
  }

  function Iso(c: Clock): string {
    Printed(Fields(c), 0)
  }

  /** `iso_at`, for a time in nanoseconds from the epoch. */
  function IsoAt(nanos: int): string {
    Iso(ClockAt(Millis(nanos)))
  }

  function TruncatingDiv(a: int, b: int): int
    requires b > 0
  {
    if a >= 0 then a / b else -(-a / b)
  }

  /** `iso_to_epoch`, with divisions that truncate. */
  function IsoToEpoch(value: string): Option<nat> {
    if |value| < 19 || value[4] != '-' || value[7] != '-' || value[10] != 'T' then None
    else match (ParseInt(value[0..4]), ParseInt(value[5..7]), ParseInt(value[8..10]),
                ParseInt(value[11..13]), ParseInt(value[14..16]), ParseInt(value[17..19]))
      case (Some(year), Some(month), Some(day), Some(hour), Some(minute), Some(second)) =>
        var seconds := ParsedDays(year, month, day) * 86_400 + hour * 3600 + minute * 60 + second;
        if seconds < 0 then None else Some(seconds)
      case _ => None
  }

  function ParsedDays(year: int, month: int, day: int): int {
    var y, m := if month <= 2 then year - 1 else year, if month <= 2 then month + 12 else month;
    var era := TruncatingDiv(y, 400);
    var yoe := y - era * 400;
    var doy := TruncatingDiv(153 * (m - 3) + 2, 5) + day - 1;
    var doe := yoe * 365 + TruncatingDiv(yoe, 4) - TruncatingDiv(yoe, 100) + doy;
    era * 146_097 + doe - 719_468
  }

  // ----- printing and parsing together

  predicate Fits(fields: seq<Field>) {
    forall i :: 0 <= i < |fields| ==> fields[i].width > 0 && fields[i].value < Pow10(fields[i].width)
  }

  /** Characters printed for the fields from `i` to `j`. */
  function Offset(fields: seq<Field>, i: nat, j: nat): nat
    requires i <= j <= |fields|
    decreases j - i
  {
    if i == j then 0 else fields[i].width + 1 + Offset(fields, i + 1, j)
  }

  lemma SliceAfter(first: string, rest: string, at: nat, end: nat)
    requires at <= end < |rest|
    ensures (first + rest)[|first| + at..|first| + end] == rest[at..end]
    ensures (first + rest)[|first| + end] == rest[end]
  {
  }

  /** Each number stands at its place, followed by its mark. */
  lemma {:induction false} FieldAt(fields: seq<Field>, i: nat, j: nat)
    requires Fits(fields) && i <= j < |fields|
    ensures var at, s := Offset(fields, i, j), Printed(fields, i);
            && at + fields[j].width < |s|
            && s[at..at + fields[j].width] == Numeral(fields[j].value, fields[j].width)
            && s[at + fields[j].width] == fields[j].mark
    decreases j - i
  {
    var head, numeral := fields[i], Numeral(fields[i].value, fields[i].width);
    NumeralWidth(head.value, head.width);
    if i < j {
      FieldAt(fields, i + 1, j);
      var at := Offset(fields, i + 1, j);
      SliceAfter(numeral + [head.mark], Printed(fields, i + 1), at, at + fields[j].width);
    }
  }

  lemma PowersOfTen()
    ensures Pow10(1) == 10 && Pow10(2) == 100 && Pow10(3) == 1000 && Pow10(4) == 10000
  {
    assert Pow10(0) == 1;
  }

  /** Every printed number fits its width exactly up to the end of year 9999. */
  lemma ClockFits(millis: nat)
    ensures Fits(Fields(ClockAt(millis))) <==> millis / 1000 < LIMIT
    ensures ClockAt(millis).year < 10000 <==> millis / 1000 < LIMIT
  {
    var c := ClockAt(millis);
    var days := millis / 1000 / 86400;
    YearsToLimit(days);
    CivilIsValidAndInverted(days);
    NumbersFit(c);
  }

  lemma NumbersFit(c: Clock)
    requires c.month < 100 && c.day < 100 && c.hour < 100 && c.minute < 100 && c.second < 100 && c.milli < 1000
    ensures Fits(Fields(c)) <==> c.year < 10000
  {
    PowersOfTen();
    assert Fields(c)[0].value == c.year;
  }

  /** On valid dates from year 1 on the truncating divisions of the parser are floored ones. */
  lemma ParsedDaysAgree(date: Date)
    requires ValidDate(date) && date.year >= 1
    ensures ParsedDays(date.year, date.month, date.day) == DaysOf(date)
  {
  }

  lemma FieldOffsets(c: Clock)
    ensures var f := Fields(c);
            && Offset(f, 0, 0) == 0 && Offset(f, 0, 1) == 5 && Offset(f, 0, 2) == 8
            && Offset(f, 0, 3) == 11 && Offset(f, 0, 4) == 14 && Offset(f, 0, 5) == 17
  {
  }

  /** The six numbers the parser reads are the six numbers printed. */
  lemma NumbersReadBack(c: Clock)
    requires Fits(Fields(c))
    ensures var s := Iso(c);
            && |s| >= 20 && s[4] == '-' && s[7] == '-' && s[10] == 'T'
            && ParseInt(s[0..4]) == Some(c.year) && ParseInt(s[5..7]) == Some(c.month)
            && ParseInt(s[8..10]) == Some(c.day) && ParseInt(s[11..13]) == Some(c.hour)
            && ParseInt(s[14..16]) == Some(c.minute) && ParseInt(s[17..19]) == Some(c.second)
  {
    FieldOffsets(c);
    var f := Fields(c);
    FieldParses(f, 0);
    FieldParses(f, 1);
    FieldParses(f, 2);
    FieldParses(f, 3);
    FieldParses(f, 4);
    FieldParses(f, 5);
  }

  lemma FieldParses(f: seq<Field>, i: nat)
    requires Fits(f) && i < |f|
    ensures var at, s := Offset(f, 0, i), Printed(f, 0);
            && at + f[i].width < |s| && s[at + f[i].width] == f[i].mark
            && ParseInt(s[at..at + f[i].width]) == Some(f[i].value)
  {
    FieldAt(f, 0, i);
    NumeralParses(f[i].value, f[i].width);
  }

  lemma SecondsOfDay(rem: nat)
    requires rem < 86400
    ensures rem / 3600 * 3600 + rem % 3600 / 60 * 60 + rem % 60 == rem
  {
    assert rem % 60 == rem % 3600 % 60;
  }

  /** A clock reading in nanoseconds, as whole seconds and what is left of one. */
  lemma MillisOf(s: nat, r: nat)
    requires r < 1_000_000_000
    ensures Millis(s * 1_000_000_000 + r) == s * 1000 + r / 1_000_000
    ensures Millis(s * 1_000_000_000 + r) / 1000 == s
  {
    var n := s * 1_000_000_000 + r;
    assert n == 1_000_000 * (s * 1000 + r / 1_000_000) + r % 1_000_000;
    assert n / 1_000_000 == s * 1000 + r / 1_000_000;
  }

  /**
   * The parser gives back the whole seconds of a printed time, s seconds and r
   * nanoseconds from the epoch, exactly up to the end of year 9999.
   */
  lemma RoundTripIff(s: nat, r: nat)
    requires r < 1_000_000_000
    ensures IsoToEpoch(IsoAt(s * 1_000_000_000 + r)) == Some(s) <==> s < 253_402_300_800
    ensures s >= 253_402_300_800 ==> IsoToEpoch(IsoAt(s * 1_000_000_000 + r)) == None
  {
    var millis := Millis(s * 1_000_000_000 + r);
    MillisOf(s, r);
    ClockFits(millis);
    ClockCounts(millis);
    PrintedClockParses(ClockAt(millis));
  }

  /** Times before the epoch print as the epoch. */
  lemma BeforeEpoch(nanos: int)
    requires nanos < 0
    ensures IsoAt(nanos) == IsoAt(0) && IsoToEpoch(IsoAt(nanos)) == Some(0)
  {
    RoundTripIff(0, 0);
  }

  /** The whole text by position: seven numbers, each of its width, and the seven marks between and after them. */
  lemma IsoLayout(s: nat, r: nat)
    requires r < 1_000_000_000 && s < 253_402_300_800
    ensures var text, date, rem := IsoAt(s * 1_000_000_000 + r), Civil(s / 86400), s % 86400;
            && |text| == 24
            && text[4] == '-' && text[7] == '-' && text[10] == 'T' && text[13] == ':' && text[16] == ':'
            && text[19] == '.' && text[23] == 'Z'
            && ParseInt(text[0..4]) == Some(date.year) && ParseInt(text[5..7]) == Some(date.month)
            && ParseInt(text[8..10]) == Some(date.day) && ParseInt(text[11..13]) == Some(rem / 3600)
            && ParseInt(text[14..16]) == Some(rem % 3600 / 60) && ParseInt(text[17..19]) == Some(rem % 60)
            && ParseInt(text[20..23]) == Some(r / 1_000_000)
  {
    var millis := Millis(s * 1_000_000_000 + r);
    MillisOf(s, r);
    ClockFits(millis);
    LayoutOf(ClockAt(millis));
    assert millis % 1000 == r / 1_000_000;
  }

  lemma LayoutOf(c: Clock)
    requires Fits(Fields(c))
    ensures var text := Iso(c);
            && |text| == 24
            && text[4] == '-' && text[7] == '-' && text[10] == 'T' && text[13] == ':' && text[16] == ':'
            && text[19] == '.' && text[23] == 'Z'
            && ParseInt(text[0..4]) == Some(c.year) && ParseInt(text[5..7]) == Some(c.month)
            && ParseInt(text[8..10]) == Some(c.day) && ParseInt(text[11..13]) == Some(c.hour)
            && ParseInt(text[14..16]) == Some(c.minute) && ParseInt(text[17..19]) == Some(c.second)
            && ParseInt(text[20..23]) == Some(c.milli)
  {
    NumbersReadBack(c);
    LaterMarks(c);
    IsoLength(c);
  }

  lemma LaterMarks(c: Clock)
    requires Fits(Fields(c))
    ensures var text := Iso(c);
            && |text| > 23 && text[13] == ':' && text[16] == ':' && text[19] == '.' && text[23] == 'Z'
            && ParseInt(text[20..23]) == Some(c.milli)
  {
    var f := Fields(c);
    FieldOffsets(c);
    LastOffset(c);
    FieldParses(f, 3);
    FieldParses(f, 4);
    FieldParses(f, 5);
    FieldParses(f, 6);
  }

  lemma LastOffset(c: Clock)
    ensures |Fields(c)| == 7 && Offset(Fields(c), 0, 6) == 20
  {
    FieldOffsets(c);
    OffsetNext(Fields(c), 0, 5);
  }

  lemma {:induction false} OffsetNext(fields: seq<Field>, i: nat, j: nat)
    requires i <= j < |fields|
    ensures Offset(fields, i, j + 1) == Offset(fields, i, j) + fields[j].width + 1
    decreases j - i
  {
    if i < j { OffsetNext(fields, i + 1, j); }
  }

  lemma {:induction false} PrintedLength(fields: seq<Field>, i: nat)
    requires Fits(fields) && i <= |fields|
    ensures |Printed(fields, i)| == Offset(fields, i, |fields|)
    decreases |fields| - i
  {
    if i < |fields| {
      NumeralWidth(fields[i].value, fields[i].width);
      PrintedLength(fields, i + 1);
    }
  }

  lemma IsoLength(c: Clock)
    requires Fits(Fields(c))
    ensures |Iso(c)| == 24
  {
    LastOffset(c);
    OffsetNext(Fields(c), 0, 6);
    PrintedLength(Fields(c), 0);
  }

  function ParsedSeconds(c: Clock): int {
    ParsedDays(c.year, c.month, c.day) * 86_400 + c.hour * 3600 + c.minute * 60 + c.second
  }

  lemma PrintedClockParses(c: Clock)
    requires Fits(Fields(c)) <==> c.year < 10000
    ensures c.year < 10000 && ParsedSeconds(c) >= 0 ==> IsoToEpoch(Iso(c)) == Some(ParsedSeconds(c))
    ensures c.year >= 10000 ==> IsoToEpoch(Iso(c)) == None
  {
    if c.year < 10000 { NumbersReadBack(c); } else { LongYear(c); }
  }

  /** The parser's arithmetic undoes the printer's. */
  lemma ClockCounts(millis: nat)
    ensures ParsedSeconds(ClockAt(millis)) == millis / 1000
  {
    var days, rem := millis / 1000 / 86400, millis / 1000 % 86400;
    CivilIsValidAndInverted(days);
    YearsToLimit(days);
    ParsedDaysAgree(Civil(days));
    SecondsOfDay(rem);
  }

  /** From year 10000 on the fifth character is a digit. */
  lemma LongYear(c: Clock)
    requires c.year >= 10000
    ensures |Iso(c)| > 4 && IsDigit(Iso(c)[4])
  {
    PowersOfTen();
    NumeralWidth(c.year, 4);
    NumeralReads(c.year, 4);
    assert Iso(c)[4] == Numeral(c.year, 4)[4];
  }

  /** A printed time parses the same without its fraction, in part or whole, and not at all when it is shorter. */
  lemma CutTimesParse(s: nat, r: nat, k: nat)
    requires r < 1_000_000_000 && s < 253_402_300_800 && k <= 24
    ensures |IsoAt(s * 1_000_000_000 + r)| == 24
    ensures IsoToEpoch(IsoAt(s * 1_000_000_000 + r)[..k]) == if k >= 19 then Some(s) else None
  {
    IsoLayout(s, r);
    RoundTripIff(s, r);
    if k >= 19 { FirstNineteen(IsoAt(s * 1_000_000_000 + r), k); }
  }

  /** The parser reads nineteen characters and no more. */
  lemma FirstNineteen(text: string, k: nat)
    requires 19 <= k <= |text|
    ensures IsoToEpoch(text[..k]) == IsoToEpoch(text)
  {
    var cut := text[..k];
    assert cut[0..4] == text[0..4] && cut[5..7] == text[5..7] && cut[8..10] == text[8..10];
    assert cut[11..13] == text[11..13] && cut[14..16] == text[14..16] && cut[17..19] == text[17..19];
  }

  /** A number may carry one sign; a sign alone, a second sign and the empty text are no numbers. */
  lemma SignedNumbers(n: nat, width: nat)
    ensures ParseInt(['+'] + Numeral(n, width)) == Some(n)
    ensures ParseInt(['-'] + Numeral(n, width)) == Some(0 - n as int)
    ensures ParseInt("") == None && ParseInt("+") == None && ParseInt("-") == None
    ensures ParseInt(['-', '-'] + Numeral(n, width)) == None
  {
    NumeralReads(n, width);
    assert (['+'] + Numeral(n, width))[1..] == Numeral(n, width) == (['-'] + Numeral(n, width))[1..];
    var twice := ['-', '-'] + Numeral(n, width);
    NoSignAmongDigits(twice[1..]);
  }

  lemma {:induction false} NoSignAmongDigits(s: string)
    requires s != [] && !IsDigit(s[0])
    ensures DigitsValue(s) == None
  {
    if |s| > 1 { NoSignAmongDigits(s[..|s| - 1]); }
  }

  // ----- order

  /** The numbers first differ at `i`, and are smaller there; widths and marks are the same. */
  predicate SmallerAt(a: seq<Field>, b: seq<Field>, i: nat) {
    && i < |a| == |b| && a[i].value < b[i].value
    && (forall j :: 0 <= j < |a| ==> a[j].width == b[j].width && a[j].mark == b[j].mark)
    && forall j :: 0 <= j < i ==> a[j].value == b[j].value
  }

  lemma SmallerFieldPrintsSmaller(x: Field, y: Field, rest: string, other: string)
    requires x.width == y.width > 0 && x.mark == y.mark && x.value < y.value < Pow10(y.width)
    ensures Less(Numeral(x.value, x.width) + [x.mark] + rest, Numeral(y.value, y.width) + [y.mark] + other)
  {
    var m, n := Numeral(x.value, x.width), Numeral(y.value, y.width);
    NumeralWidth(x.value, x.width);
    NumeralWidth(y.value, y.width);
    NumeralsKeepOrder(x.value, y.value, x.width);
    LessExtends(m, n, [x.mark] + rest, [y.mark] + other);
    assert m + ([x.mark] + rest) == m + [x.mark] + rest && n + ([y.mark] + other) == n + [y.mark] + other;
  }

  lemma {:induction false} PrintedKeepsOrder(a: seq<Field>, b: seq<Field>, i: nat, k: nat)
    requires Fits(a) && Fits(b) && SmallerAt(a, b, i) && k <= i
    ensures Less(Printed(a, k), Printed(b, k))
    decreases i - k
  {
    if k == i {
      SmallerFieldPrintsSmaller(a[k], b[k], Printed(a, k + 1), Printed(b, k + 1));
    } else {
      PrintedKeepsOrder(a, b, i, k + 1);
      LessAfter(Numeral(a[k].value, a[k].width) + [a[k].mark], Printed(a, k + 1), Printed(b, k + 1));
    }
  }

  lemma TimeOfDayKeepsOrder(r: nat, s: nat)
    requires r < s
    ensures r / 3600 < s / 3600
         || (r / 3600 == s / 3600 && r % 3600 / 60 < s % 3600 / 60)
         || (r / 3600 == s / 3600 && r % 3600 / 60 == s % 3600 / 60 && r % 60 < s % 60)
  {
    SecondsOfDay(r % 86400);
    assert r % 60 == r % 3600 % 60 && s % 60 == s % 3600 % 60;
  }

  predicate SameDay(c: Clock, d: Clock) {
    c.year == d.year && c.month == d.month && c.day == d.day
  }

  predicate SameSecond(c: Clock, d: Clock) {
    SameDay(c, d) && c.hour == d.hour && c.minute == d.minute && c.second == d.second
  }

  predicate EarlierInDay(c: Clock, d: Clock) {
    || c.hour < d.hour
    || (c.hour == d.hour && c.minute < d.minute)
    || (c.hour == d.hour && c.minute == d.minute && c.second < d.second)
  }

  predicate EarlierClock(c: Clock, d: Clock) {
    || Earlier(Date(c.year, c.month, c.day), Date(d.year, d.month, d.day))
    || (SameDay(c, d) && EarlierInDay(c, d))
    || (SameSecond(c, d) && c.milli < d.milli)
  }

  lemma ClockOfKeepsOrder(a: Date, r: nat, m: nat, b: Date, s: nat, n: nat)
    requires ValidDate(a) && ValidDate(b) && a.year >= 0 && b.year >= 0
    requires Earlier(a, b) || (a == b && r < s) || (a == b && r == s && m < n)
    ensures EarlierClock(ClockOf(a, r, m), ClockOf(b, s, n))
  {
    if r < s { TimeOfDayKeepsOrder(r, s); }
  }

  lemma MillisParts(m: nat, n: nat)
    requires m < n
    ensures var a, b := m / 1000, n / 1000;
            || a / 86400 < b / 86400
            || (a / 86400 == b / 86400 && a % 86400 < b % 86400)
            || (a == b && m % 1000 < n % 1000)
  {
  }

  lemma ClockKeepsOrder(m: nat, n: nat)
    requires m < n
    ensures EarlierClock(ClockAt(m), ClockAt(n))
  {
    var a, b := m / 1000, n / 1000;
    MillisParts(m, n);
    var c, d := a / 86400, b / 86400;
    if c < d { CivilKeepsOrder(c, d); }
    CivilIsValidAndInverted(c);
    CivilIsValidAndInverted(d);
    YearsToLimit(c);
    YearsToLimit(d);
    ClockOfKeepsOrder(Civil(c), a % 86400, m % 1000, Civil(d), b % 86400, n % 1000);
  }

  /** An earlier clock first differs in some number, which is smaller. */
  lemma FieldsKeepOrder(c: Clock, d: Clock) returns (i: nat)
    requires EarlierClock(c, d)
    ensures SmallerAt(Fields(c), Fields(d), i)
  {
    i := if c.year < d.year then 0 else if c.month < d.month then 1 else if c.day < d.day then 2
         else if c.hour < d.hour then 3 else if c.minute < d.minute then 4 else if c.second < d.second then 5 else 6;
  }

  /** Up to the end of year 9999 a later millisecond prints a larger string. */
  lemma LaterPrintsLarger(m: nat, n: nat)
    requires m < n && n / 1000 < LIMIT
    ensures Less(Iso(ClockAt(m)), Iso(ClockAt(n)))
  {
    ClockFits(m);
    ClockFits(n);
    ClockKeepsOrder(m, n);
    var i := FieldsKeepOrder(ClockAt(m), ClockAt(n));
    PrintedKeepsOrder(Fields(ClockAt(m)), Fields(ClockAt(n)), i, 0);
  }

  /**
   * Up to the end of year 9999, for times in nanoseconds from the epoch, the order of
   * milliseconds is the order of the strings, and equal strings mean equal milliseconds.
   */
  lemma StringOrderIsTimeOrder(s: nat, t: nat)
    requires s < 253_402_300_800_000_000_000 && t < 253_402_300_800_000_000_000
    ensures Less(IsoAt(s), IsoAt(t)) <==> s / 1_000_000 < t / 1_000_000
    ensures IsoAt(s) == IsoAt(t) <==> s / 1_000_000 == t / 1_000_000
  {
    LessIrreflexive(IsoAt(s));
    if Millis(s) < Millis(t) { LaterPrintsLarger(Millis(s), Millis(t)); }
    if Millis(t) < Millis(s) {
      LaterPrintsLarger(Millis(t), Millis(s));
      LessAsymmetric(IsoAt(t), IsoAt(s));
    }
  }
}
