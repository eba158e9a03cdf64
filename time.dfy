/**
 * Time utilities (src/time.ts): strict parsing of `YYYY/MM/DD HH:mm`
 * timestamps into instants, lead-time offsets and timer delays.
 *
 * An instant is a count of milliseconds since 1970-01-01T00:00Z. A wall-clock
 * reading in a zone whose offset from UTC is `offset` milliseconds denotes the
 * instant `WallClockMillis(fields) - offset`.
 */
module Time {
  import opened Wrappers
  import opened Types

  const MillisPerMinute := 60_000
  const MillisPerHour := 3_600_000
  const MillisPerDay := 86_400_000

  /** Asia/Shanghai is UTC+8 all year round. */
  const ShanghaiOffsetMillis := 8 * MillisPerHour

  /**
   * The smallest year strict parsing accepts. A four-digit year below 100
   * never re-renders to itself: year 0 is replaced by the current year and
   * years 1..99 are read as 1901..1999 by the date constructor.
   */
  const MinYear := 100
  const MaxYear := 9999

  /** The fields of a `YYYY/MM/DD HH:mm` reading. */
  datatype Fields = Fields(year: int, month: int, day: int, hour: int, minute: int)

  predicate IsLeapYear(y: int) {
    y % 4 == 0 && (y % 100 != 0 || y % 400 == 0)
  }

  function DaysInYear(y: int): int {
    if IsLeapYear(y) then 366 else 365
  }

  function DaysInMonth(y: int, m: int): (n: int)
    ensures 28 <= n <= 31
  {
    if m == 2 then (if IsLeapYear(y) then 29 else 28)
    else if m == 4 || m == 6 || m == 9 || m == 11 then 30
    else 31
  }

  /** A calendar date and a clock reading that actually exist. */
  predicate ValidFields(f: Fields) {
    && MinYear <= f.year <= MaxYear
    && 1 <= f.month <= 12
    && 1 <= f.day <= DaysInMonth(f.year, f.month)
    && 0 <= f.hour < 24
    && 0 <= f.minute < 60
  }

  // ---------------------------------------------------------------------------
  // Rendering and strict reading of `YYYY/MM/DD HH:mm`

  predicate IsDigit(c: char) {
    '0' <= c <= '9'
  }

  function DigitValue(c: char): int {
    c as int - '0' as int
  }

  function DigitChar(d: int): (c: char)
    requires 0 <= d <= 9
    ensures IsDigit(c) && DigitValue(c) == d
  {
    ('0' as int + d) as char
  }

  function Pad2(n: int): (s: string)
    requires 0 <= n < 100
  {
    [DigitChar(n / 10), DigitChar(n % 10)]
  }

  function Pad4(n: int): (s: string)
    requires 0 <= n < 10000
  {
    [DigitChar(n / 1000), DigitChar(n / 100 % 10), DigitChar(n / 10 % 10), DigitChar(n % 10)]
  }

  /** The `YYYY/MM/DD HH:mm` rendering of valid fields. */
  function Format(f: Fields): (s: string)
    requires ValidFields(f)
  {
    Pad4(f.year) + "/" + Pad2(f.month) + "/" + Pad2(f.day) + " " + Pad2(f.hour) + ":" + Pad2(f.minute)
  }

  /** Sixteen characters: digits, with `/`, `/`, ` ` and `:` at positions 4, 7, 10, 13. */
  predicate HasShape(s: string) {
    && |s| == 16
    && s[4] == '/' && s[7] == '/' && s[10] == ' ' && s[13] == ':'
    && forall i :: 0 <= i < 16 && i != 4 && i != 7 && i != 10 && i != 13 ==> IsDigit(s[i])
  }

  function Value2(s: string, i: nat): int
    requires i + 2 <= |s|
  {
    10 * DigitValue(s[i]) + DigitValue(s[i + 1])
  }

  function Value4(s: string, i: nat): int
    requires i + 4 <= |s|
  {
    1000 * DigitValue(s[i]) + 100 * DigitValue(s[i + 1]) + 10 * DigitValue(s[i + 2]) + DigitValue(s[i + 3])
  }

  /**
   * Strict reading of `YYYY/MM/DD HH:mm`: the text must have the shape
   * exactly and denote an existing date and clock time.
   */
  function ParseFields(s: string): (r: Option<Fields>)
    ensures r.Some? ==> HasShape(s) && ValidFields(r.value)
  {
    if !HasShape(s) then None
    else
      var f := Fields(Value4(s, 0), Value2(s, 5), Value2(s, 8), Value2(s, 11), Value2(s, 14));
      if ValidFields(f) then Some(f) else None
  }

  lemma Pad2Reads(s: string, i: nat)
    requires i + 2 <= |s| && IsDigit(s[i]) && IsDigit(s[i + 1])
    ensures 0 <= Value2(s, i) < 100 && Pad2(Value2(s, i)) == s[i..i + 2]
  {
    var a, b := DigitValue(s[i]), DigitValue(s[i + 1]);
    assert (10 * a + b) / 10 == a && (10 * a + b) % 10 == b;
  }

  lemma Pad4Reads(s: string, i: nat)
    requires i + 4 <= |s| && IsDigit(s[i]) && IsDigit(s[i + 1]) && IsDigit(s[i + 2]) && IsDigit(s[i + 3])
    ensures 0 <= Value4(s, i) < 10000 && Pad4(Value4(s, i)) == s[i..i + 4]
  {
    var a, b, c, d := DigitValue(s[i]), DigitValue(s[i + 1]), DigitValue(s[i + 2]), DigitValue(s[i + 3]);
    var n := 1000 * a + 100 * b + 10 * c + d;
    assert n / 1000 == a;
    assert n / 100 == 10 * a + b;
    assert n / 10 == 100 * a + 10 * b + c;
  }

  lemma ValueOfPad2(n: int)
    requires 0 <= n < 100
    ensures Value2(Pad2(n), 0) == n
  {
  }

  lemma ValueOfPad4(n: int)
    requires 0 <= n < 10000
    ensures Value4(Pad4(n), 0) == n
  {
    var a, b, c, d := n / 1000, n / 100 % 10, n / 10 % 10, n % 10;
    assert n / 100 == 10 * a + b;
    assert n / 10 == 10 * (n / 100) + c;
  }

  /**
   * Strictness, one way: whatever is accepted is valid and re-renders to
   * exactly the text it was read from.
   */
  lemma {:induction false} ParseThenFormat(s: string)
    requires ParseFields(s).Some?
    ensures ValidFields(ParseFields(s).value)
    ensures Format(ParseFields(s).value) == s
  {
    var f := ParseFields(s).value;
    Pad4Reads(s, 0);
    Pad2Reads(s, 5);
    Pad2Reads(s, 8);
    Pad2Reads(s, 11);
    Pad2Reads(s, 14);
    assert s == s[0..4] + [s[4]] + s[5..7] + [s[7]] + s[8..10] + [s[10]] + s[11..13] + [s[13]] + s[14..16];
  }

  /** Strictness, the other way: every valid reading is accepted in its own rendering. */
  lemma {:induction false} FormatThenParse(f: Fields)
    requires ValidFields(f)
    ensures ParseFields(Format(f)) == Some(f)
  {
    var s := Format(f);
    var y, mo, d, h, mi := Pad4(f.year), Pad2(f.month), Pad2(f.day), Pad2(f.hour), Pad2(f.minute);
    assert s == y + "/" + mo + "/" + d + " " + h + ":" + mi;
    assert s[0] == y[0] && s[1] == y[1] && s[2] == y[2] && s[3] == y[3];
    assert s[5] == mo[0] && s[6] == mo[1] && s[8] == d[0] && s[9] == d[1];
    assert s[11] == h[0] && s[12] == h[1] && s[14] == mi[0] && s[15] == mi[1];
    ValueOfPad4(f.year);
    ValueOfPad2(f.month);
    ValueOfPad2(f.day);
    ValueOfPad2(f.hour);
    ValueOfPad2(f.minute);
    assert Value4(s, 0) == Value4(Pad4(f.year), 0);
    assert Value2(s, 5) == Value2(Pad2(f.month), 0);
    assert Value2(s, 8) == Value2(Pad2(f.day), 0);
    assert Value2(s, 11) == Value2(Pad2(f.hour), 0);
    assert Value2(s, 14) == Value2(Pad2(f.minute), 0);
  }

  // ---------------------------------------------------------------------------
  // Proleptic Gregorian calendar arithmetic

  /** Days from 1970-01-01 to January 1st of year `y`. */
  function DaysBeforeYear(y: int): int
    decreases if y < 1970 then 1970 - y else y - 1970
  {
    if y == 1970 then 0
    else if y > 1970 then DaysBeforeYear(y - 1) + DaysInYear(y - 1)
    else DaysBeforeYear(y + 1) - DaysInYear(y)
  }

  /** Days from January 1st to the first day of month `m` (1..13) of year `y`. */
  function DaysBeforeMonth(y: int, m: int): int
    decreases m
  {
    if m <= 1 then 0 else DaysBeforeMonth(y, m - 1) + DaysInMonth(y, m - 1)
  }

  /** Days from 1970-01-01 to the date of `f`. */
  function EpochDay(f: Fields): int {
    DaysBeforeYear(f.year) + DaysBeforeMonth(f.year, f.month) + f.day - 1
  }

  /** The wall-clock reading `f` counted in milliseconds as if it were UTC. */
  function WallClockMillis(f: Fields): int {
    EpochDay(f) * MillisPerDay + f.hour * MillisPerHour + f.minute * MillisPerMinute
  }

  /** Instant `t` reads as `f` on a wall clock `offset` milliseconds ahead of UTC. */
  predicate WallClockIs(t: Instant, offset: int, f: Fields) {
    ValidFields(f) && WallClockMillis(f) == t + offset
  }

  /** Lexicographic order on (year, month, day, hour, minute). */
  predicate FieldsBefore(f: Fields, g: Fields) {
    || f.year < g.year
    || (f.year == g.year && f.month < g.month)
    || (f.year == g.year && f.month == g.month && f.day < g.day)
    || (f.year == g.year && f.month == g.month && f.day == g.day && f.hour < g.hour)
    || (f.year == g.year && f.month == g.month && f.day == g.day && f.hour == g.hour && f.minute < g.minute)
  }

  lemma NextYear(y: int)
    ensures DaysBeforeYear(y + 1) == DaysBeforeYear(y) + DaysInYear(y)
  {
  }

  lemma {:induction false} DaysBeforeYearMonotone(y: int, z: int)
    requires y <= z
    ensures DaysBeforeYear(y) + (z - y) * 365 <= DaysBeforeYear(z)
    decreases z - y
  {
    if y < z {
      DaysBeforeYearMonotone(y + 1, z);
      NextYear(y);
    }
  }

  lemma {:induction false} DaysBeforeMonthMonotone(y: int, m: int, n: int)
    requires 1 <= m <= n
    ensures DaysBeforeMonth(y, m) + (n - m) * 28 <= DaysBeforeMonth(y, n)
    decreases n - m
  {
    if m < n {
      DaysBeforeMonthMonotone(y, m, n - 1);
    }
  }

  lemma WholeYear(y: int)
    ensures DaysBeforeMonth(y, 13) == DaysInYear(y)
  {
  }

  /** Every valid date falls inside its own year. */
  lemma {:induction false} DayOfYearBounded(f: Fields)
    requires ValidFields(f)
    ensures 0 <= DaysBeforeMonth(f.year, f.month) + f.day - 1 < DaysInYear(f.year)
  {
    DaysBeforeMonthMonotone(f.year, 1, f.month);
    DaysBeforeMonthMonotone(f.year, f.month + 1, 13);
    WholeYear(f.year);
  }

  /** Later dates have later epoch days. */
  lemma {:induction false} EpochDayMonotone(f: Fields, g: Fields)
    requires ValidFields(f) && ValidFields(g)
    requires f.year < g.year || (f.year == g.year && f.month < g.month)
             || (f.year == g.year && f.month == g.month && f.day < g.day)
    ensures EpochDay(f) < EpochDay(g)
  {
    DayOfYearBounded(f);
    DayOfYearBounded(g);
    if f.year < g.year {
      NextYear(f.year);
      DaysBeforeYearMonotone(f.year + 1, g.year);
    } else if f.month < g.month {
      DaysBeforeMonthMonotone(f.year, f.month + 1, g.month);
    }
  }

  /**
   * Instants follow the order of wall-clock readings: a reading that comes
   * first lexicographically denotes a strictly earlier instant.
   */
  lemma {:induction false} WallClockOrder(f: Fields, g: Fields)
    requires ValidFields(f) && ValidFields(g) && FieldsBefore(f, g)
    ensures WallClockMillis(f) < WallClockMillis(g)
  {
    if f.year != g.year || f.month != g.month || f.day != g.day {
      EpochDayMonotone(f, g);
      var df, dg := EpochDay(f), EpochDay(g);
      assert (df + 1) * MillisPerDay <= dg * MillisPerDay;
    }
  }

  /** A wall clock in a fixed zone shows each instant as at most one reading. */
  lemma {:induction false} WallClockUnique(t: Instant, offset: int, f: Fields, g: Fields)
    requires WallClockIs(t, offset, f) && WallClockIs(t, offset, g)
    ensures f == g
  {
    if FieldsBefore(f, g) {
      WallClockOrder(f, g);
    } else if FieldsBefore(g, f) {
      WallClockOrder(g, f);
    }
  }

  // ---------------------------------------------------------------------------
  // The operations of src/time.ts

  /**
   * `parseScheduledTime`, as written: an absent or empty value and anything
   * that is not strictly `YYYY/MM/DD HH:mm` give `None`; otherwise the reading
   * is taken in the zone of the running process, `zoneOffset` milliseconds
   * ahead of UTC.
   */
  function ParseScheduledTime(value: Option<string>, zoneOffset: int): (r: Option<Instant>)
    ensures value == None || value == Some("") ==> r == None
    ensures r.Some? <==> value.Some? && ParseFields(value.value).Some?
    ensures r.Some? ==> WallClockIs(r.value, zoneOffset, ParseFields(value.value).value)
  {
    match value
    case None => None
    case Some(s) =>
      if s == "" then None
      else
        match ParseFields(s)
        case None => None
        case Some(f) => Some(WallClockMillis(f) - zoneOffset)
  }

  /** `parseScheduledTime` as intended: the reading is taken in Asia/Shanghai. */
  function ParseShanghaiTime(value: Option<string>): (r: Option<Instant>)
    ensures r.Some? <==> value.Some? && ParseFields(value.value).Some?
  {
    ParseScheduledTime(value, ShanghaiOffsetMillis)
  }

  /**
   * The instant the intended parse returns shows, on a Shanghai wall clock,
   * exactly the reading that was written and no other, whatever the zone of
   * the running process.
   */
  lemma {:induction false} ShanghaiTimeReadsBack(s: string, t: Instant, f: Fields)
    requires ParseShanghaiTime(Some(s)) == Some(t)
    ensures WallClockIs(t, ShanghaiOffsetMillis, ParseFields(s).value)
    ensures Format(ParseFields(s).value) == s
    ensures WallClockIs(t, ShanghaiOffsetMillis, f) ==> f == ParseFields(s).value
  {
    ParseThenFormat(s);
    if WallClockIs(t, ShanghaiOffsetMillis, f) {
      WallClockUnique(t, ShanghaiOffsetMillis, f, ParseFields(s).value);
    }
  }

  /**
   * As written, a process running in any zone other than Asia/Shanghai gets
   * an instant whose Shanghai wall clock is not the reading that was written:
   * it is off by the difference between the two offsets.
   */
  lemma {:induction false} ProcessZoneMisreadsShanghaiTime(s: string, zoneOffset: int)
    requires zoneOffset != ShanghaiOffsetMillis
    requires ParseScheduledTime(Some(s), zoneOffset).Some?
    ensures ParseShanghaiTime(Some(s)).Some?
    ensures ParseScheduledTime(Some(s), zoneOffset).value
            == ParseShanghaiTime(Some(s)).value + ShanghaiOffsetMillis - zoneOffset
    ensures !WallClockIs(ParseScheduledTime(Some(s), zoneOffset).value, ShanghaiOffsetMillis, ParseFields(s).value)
  {
  }

  /** `minutesBefore`: the instant `minutes` minutes earlier. */
  function MinutesBefore(instant: Instant, minutes: int): (r: Instant)
    ensures minutes == 0 ==> r == instant
    ensures minutes > 0 ==> r < instant
    ensures r + minutes * MillisPerMinute == instant
  {
    instant - minutes * MillisPerMinute
  }

  /** `millisUntil`: the delay until `instant`, seen at `now`; never negative. */
  function MillisUntil(instant: Instant, now: Instant): (r: int)
    ensures r >= 0
    ensures r == 0 <==> instant <= now
    ensures instant > now ==> now + r == instant
  {
    if instant - now > 0 then instant - now else 0
  }

  /** Later instants never get shorter delays. */
  lemma MillisUntilMonotone(d1: Instant, d2: Instant, now: Instant)
    requires d1 <= d2
    ensures MillisUntil(d1, now) <= MillisUntil(d2, now)
  {
  }

  /**
   * Going back a few minutes on the same day is going back the same number
   * of minutes on the wall clock.
   */
  lemma {:induction false} MinutesBeforeSameDay(sf: string, sg: string, minutes: int)
    requires ParseFields(sf).Some? && ParseFields(sg).Some?
    requires var f, g := ParseFields(sf).value, ParseFields(sg).value;
      f.year == g.year && f.month == g.month && f.day == g.day &&
      g.hour * 60 + g.minute == f.hour * 60 + f.minute - minutes
    ensures ParseShanghaiTime(Some(sg)) == Some(MinutesBefore(ParseShanghaiTime(Some(sf)).value, minutes))
  {
    SameDayShift(ParseFields(sf).value, ParseFields(sg).value, minutes);
  }

  lemma SameDayShift(f: Fields, g: Fields, minutes: int)
    requires f.year == g.year && f.month == g.month && f.day == g.day
    requires g.hour * 60 + g.minute == f.hour * 60 + f.minute - minutes
    ensures WallClockMillis(g) == WallClockMillis(f) - minutes * MillisPerMinute
  {
    assert EpochDay(g) == EpochDay(f);
  }

  /**
   * A job written as `2024/05/01 10:00` with a lead time of 3 minutes is
   * checked at `2024/05/01 09:57`, Shanghai time.
   */
  lemma LeadTimeExample()
    ensures ParseShanghaiTime(Some("2024/05/01 10:00")).Some?
    ensures ParseShanghaiTime(Some("2024/05/01 09:57"))
            == Some(MinutesBefore(ParseShanghaiTime(Some("2024/05/01 10:00")).value, 3))
  {
    var sf, sg := "2024/05/01 10:00", "2024/05/01 09:57";
    assert HasShape(sf) && HasShape(sg);
    assert ParseFields(sf) == Some(Fields(2024, 5, 1, 10, 0));
    assert ParseFields(sg) == Some(Fields(2024, 5, 1, 9, 57));
    MinutesBeforeSameDay(sf, sg, 3);
  }
}
