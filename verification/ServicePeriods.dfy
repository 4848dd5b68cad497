/**
 Service-period windows and clock times, `internal/domain/analytics/service_period.go`, in a zone with a
 fixed offset from UTC. Instants and times of day are microseconds; day 0 is 1970-01-01, a Thursday.
 */
module ServicePeriods {
  import opened Common

  type Micros = int

  const SECOND: Micros := 1_000_000
  const MINUTE: Micros := 60 * SECOND
  const HOUR: Micros := 60 * MINUTE
  const DAY: Micros := 24 * HOUR

  // ---------------------------------------------------------------- windows

  datatype Parts = Parts(hour: int, minute: int, second: int, micros: int)

  /** `timeParts`, with what is left under a second kept in microseconds. */
  function TimeParts(value: Micros): Parts
    requires value >= 0
  {
    var hour := value / HOUR;
    var afterHour := value - hour * HOUR;
    var minute := afterHour / MINUTE;
    var afterMinute := afterHour - minute * MINUTE;
    var second := afterMinute / SECOND;
    Parts(hour, minute, second, afterMinute - second * SECOND)
  }

  lemma PartsAddUp(value: Micros)
    requires value >= 0
    ensures var p := TimeParts(value);
            && value == p.hour * HOUR + p.minute * MINUTE + p.second * SECOND + p.micros
            && 0 <= p.hour && 0 <= p.minute < 60 && 0 <= p.second < 60 && 0 <= p.micros < SECOND
            && (value < DAY ==> p.hour < 24)
  {
  }

  function LocalDate(x: Micros, offset: Micros): int { (x + offset) / DAY }

  function Weekday(date: int): int { (date + 4) % 7 }

  /** `time.Date` in the zone, as a UTC instant; an hour of 24 is the next midnight. */
  function Instant(date: int, p: Parts, offset: Micros): Micros {
    date * DAY + p.hour * HOUR + p.minute * MINUTE + p.second * SECOND + p.micros - offset
  }

  /** The window of a period on the local date of an instant, if it runs on that weekday. */
  function WindowForDate(x: Micros, offset: Micros, daysOfWeek: seq<int>, start: Micros, end: Micros): Option<(Micros, Micros)>
    requires start >= 0 && end >= 0
  {
    var date := LocalDate(x, offset);
    if Weekday(date) !in daysOfWeek then None
    else
      var from, until := Instant(date, TimeParts(start), offset), Instant(date, TimeParts(end), offset);
      Some((from, if until <= from then until + DAY else until))
  }

  predicate TimeOfDay(value: Micros) {
    0 <= value <= DAY
  }

  /** The window in terms of the date: an end not after the start is on the next date. */
  lemma WindowBounds(x: Micros, offset: Micros, daysOfWeek: seq<int>, start: Micros, end: Micros)
    requires TimeOfDay(start) && TimeOfDay(end) && WindowForDate(x, offset, daysOfWeek, start, end).Some?
    ensures var w := WindowForDate(x, offset, daysOfWeek, start, end).value; var date := LocalDate(x, offset);
            w.0 == date * DAY + start - offset && w.1 == date * DAY + end - offset + if end <= start then DAY else 0
  {
    PartsAddUp(start);
    PartsAddUp(end);
  }

  /** A window is at most 24 hours long, and empty only from 24:00 to 00:00, which no clock string gives. */
  lemma WindowLength(x: Micros, offset: Micros, daysOfWeek: seq<int>, start: Micros, end: Micros)
    requires TimeOfDay(start) && TimeOfDay(end) && WindowForDate(x, offset, daysOfWeek, start, end).Some?
    ensures var w := WindowForDate(x, offset, daysOfWeek, start, end).value;
            0 <= w.1 - w.0 <= DAY && (w.1 == w.0 <==> start == DAY && end == 0)
  {
    WindowBounds(x, offset, daysOfWeek, start, end);
  }

  /** The windows of one period on different dates never overlap. */
  lemma WindowsDisjoint(x: Micros, y: Micros, offset: Micros, daysOfWeek: seq<int>, start: Micros, end: Micros)
    requires TimeOfDay(start) && TimeOfDay(end) && LocalDate(x, offset) < LocalDate(y, offset)
    requires WindowForDate(x, offset, daysOfWeek, start, end).Some? && WindowForDate(y, offset, daysOfWeek, start, end).Some?
    ensures WindowForDate(x, offset, daysOfWeek, start, end).value.1 <= WindowForDate(y, offset, daysOfWeek, start, end).value.0
  {
    WindowBounds(x, offset, daysOfWeek, start, end);
    WindowBounds(y, offset, daysOfWeek, start, end);
    var d, e := LocalDate(x, offset), LocalDate(y, offset);
    assert (d + 1) * DAY <= e * DAY;
  }

  /** A period runs on the dates whose weekday it names, at the same local times every week. */
  lemma WindowsRepeatWeekly(x: Micros, offset: Micros, daysOfWeek: seq<int>, start: Micros, end: Micros)
    requires start >= 0 && end >= 0
    ensures var w := WindowForDate(x, offset, daysOfWeek, start, end); var next := WindowForDate(x + 7 * DAY, offset, daysOfWeek, start, end);
            && (w.Some? <==> Weekday(LocalDate(x, offset)) in daysOfWeek)
            && next == if w.Some? then Some((w.value.0 + 7 * DAY, w.value.1 + 7 * DAY)) else None
  {
    var date := LocalDate(x, offset);
    assert LocalDate(x + 7 * DAY, offset) == date + 7;
    assert (date + 7 + 4) % 7 == (date + 4) % 7;
  }

  function DayAfter(weekday: int): int {
    if weekday == 6 then 0 else weekday + 1
  }

  /** Days of the week as the calendar has them: 0 is Sunday, each day follows the one before, and 1 January 1970 was a Thursday. */
  ghost predicate CalendarDays(days: int -> int) {
    days(0) == 4 && forall e :: 0 <= days(e) <= 6 && days(e + 1) == DayAfter(days(e))
  }

  /** The weekday of a date is the calendar's, and no other counting of days is. */
  lemma {:induction false} WeekdayIsTheCalendars(days: int -> int, date: int)
    requires CalendarDays(days)
    ensures Weekday(date) == days(date)
    decreases if date < 0 then -date else date
  {
    if date > 0 {
      WeekdayIsTheCalendars(days, date - 1);
      assert days(date - 1 + 1) == DayAfter(days(date - 1));
    } else if date < 0 {
      WeekdayIsTheCalendars(days, date + 1);
      assert days(date + 1) == DayAfter(days(date));
    }
  }

  /** There is such a counting. */
  lemma CalendarDaysExist()
    ensures CalendarDays((d: int) => Weekday(d))
  {
    assert forall e :: Weekday(e + 1) == DayAfter(Weekday(e));
  }

  // ---------------------------------------------------------------- clock strings

  predicate IsDigit(c: char) { '0' <= c <= '9' }

  function DigitValue(c: char): nat
    requires IsDigit(c)
  {
    (c - '0') as int
  }

  function DigitChar(n: nat): (c: char)
    requires n < 10
    ensures IsDigit(c) && DigitValue(c) == n
  {
    '0' + n as char
  }

  function Itoa(n: nat): string {
    if n < 10 then [DigitChar(n)] else Itoa(n / 10) + [DigitChar(n % 10)]
  }

  function Two(n: nat): string {
    if n < 10 then "0" + Itoa(n) else Itoa(n)
  }

  function FormatClock(value: Micros): string
    requires value >= 0
  {
    var p := TimeParts(value);
    ClockText(p.hour, p.minute, p.second)
  }

  function ClockText(hour: nat, minute: nat, second: nat): string {
    if second == 0 then Two(hour) + ":" + Two(minute) else Two(hour) + ":" + Two(minute) + ":" + Two(second)
  }

  /** One or two digits, or exactly two when fixed. */
  function GetNum(s: string, fixed: bool): Option<(nat, string)> {
    if s == "" || !IsDigit(s[0]) then None
    else if |s| == 1 || !IsDigit(s[1]) then (if fixed then None else Some((DigitValue(s[0]), s[1..])))
    else Some((10 * DigitValue(s[0]) + DigitValue(s[1]), s[2..]))
  }

  function SkipColon(s: string): Option<string> {
    if s != "" && s[0] == ':' then Some(s[1..]) else None
  }

  function SkipDigits(s: string): string {
    if s != "" && IsDigit(s[0]) then SkipDigits(s[1..]) else s
  }

  /** A fraction after the seconds is accepted though the layout has none. */
  function SkipFraction(s: string): string {
    if |s| >= 2 && (s[0] == '.' || s[0] == ',') && IsDigit(s[1]) then SkipDigits(s[1..]) else s
  }

  function ParseHourMinute(s: string): Option<(nat, nat, string)> {
    match GetNum(s, false)
    case None => None
    case Some((hour, rest)) =>
      if hour >= 24 then None
      else match SkipColon(rest)
        case None => None
        case Some(rest) =>
          match GetNum(rest, true)
          case None => None
          case Some((minute, rest)) => if minute >= 60 then None else Some((hour, minute, rest))
  }

  function ParseSecond(s: string): Option<(nat, string)> {
    match SkipColon(s)
    case None => None
    case Some(rest) =>
      match GetNum(rest, true)
      case None => None
      case Some((second, rest)) => if second >= 60 then None else Some((second, SkipFraction(rest)))
  }

  function ClockValue(hour: nat, minute: nat, second: nat): Micros {
    hour * HOUR + minute * MINUTE + second * SECOND
  }

  /** Layout 15:04, then layout 15:04:05; the fraction is dropped. */
  function ParseClock(value: string): Option<Micros> {
    match ParseHourMinute(TrimSpace(value))
    case None => None
    case Some((hour, minute, "")) => Some(ClockValue(hour, minute, 0))
    case Some((hour, minute, rest)) =>
      match ParseSecond(rest)
      case Some((second, "")) => Some(ClockValue(hour, minute, second))
      case _ => None
  }

  lemma TwoIsTwoDigits(n: nat)
    requires n < 100
    ensures Two(n) == [DigitChar(n / 10), DigitChar(n % 10)]
  {
    if n < 10 {
      assert n / 10 == 0 && DigitChar(0) == '0' && Itoa(n) == [DigitChar(n)];
    } else {
      assert n / 10 < 10 && Itoa(n / 10) == [DigitChar(n / 10)];
    }
  }

  lemma GetNumTwo(n: nat, rest: string)
    requires n < 100
    ensures GetNum(Two(n) + rest, false) == GetNum(Two(n) + rest, true) == Some((n, rest))
  {
    TwoIsTwoDigits(n);
    assert (Two(n) + rest)[2..] == rest;
  }

  lemma ParsesHourMinute(hour: nat, minute: nat, rest: string)
    requires hour < 100 && minute < 60
    ensures ParseHourMinute(Two(hour) + ":" + Two(minute) + rest) == if hour < 24 then Some((hour, minute, rest)) else None
  {
    var tail := ":" + (Two(minute) + rest);
    assert Two(hour) + ":" + Two(minute) + rest == Two(hour) + tail;
    GetNumTwo(hour, tail);
    assert tail[1..] == Two(minute) + rest;
    GetNumTwo(minute, rest);
  }

  lemma ParsesSecond(second: nat)
    requires second < 60
    ensures ParseSecond(":" + Two(second)) == Some((second, ""))
  {
    assert (":" + Two(second))[1..] == Two(second) + "";
    GetNumTwo(second, "");
  }

  lemma ClockTextHasNoSpace(hour: nat, minute: nat, second: nat)
    requires hour < 100 && minute < 60 && second < 60
    ensures TrimSpace(ClockText(hour, minute, second)) == ClockText(hour, minute, second)
  {
    TwoIsTwoDigits(hour);
    TwoIsTwoDigits(minute);
    TwoIsTwoDigits(second);
    var s := ClockText(hour, minute, second);
    assert s[0] == DigitChar(hour / 10) && (s[|s| - 1] == DigitChar(minute % 10) || s[|s| - 1] == DigitChar(second % 10));
  }

  lemma ClockValueInDay(hour: nat, minute: nat, second: nat)
    requires hour < 24 && minute < 60 && second < 60
    ensures 0 <= ClockValue(hour, minute, second) < DAY && ClockValue(hour, minute, second) % SECOND == 0
  {
    assert ClockValue(hour, minute, second) == (hour * 3600 + minute * 60 + second) * SECOND;
  }

  lemma ParseClockText(hour: nat, minute: nat, second: nat)
    requires hour < 100 && minute < 60 && second < 60
    ensures ParseClock(ClockText(hour, minute, second)) == if hour < 24 then Some(ClockValue(hour, minute, second)) else None
  {
    ClockTextHasNoSpace(hour, minute, second);
    var rest := if second == 0 then "" else ":" + Two(second);
    assert ClockText(hour, minute, second) == Two(hour) + ":" + Two(minute) + rest;
    ParsesHourMinute(hour, minute, rest);
    ParsesSecond(second);
  }

  lemma HourInDay(value: Micros)
    requires TimeOfDay(value)
    ensures var p := TimeParts(value); 0 <= p.hour <= 24 && (p.hour == 24 <==> value == DAY) && 0 <= p.minute < 60 && 0 <= p.second < 60
  {
    PartsAddUp(value);
  }

  lemma WholeSeconds(value: Micros)
    requires 0 <= value < DAY
    ensures var p := TimeParts(value);
            p.hour >= 0 && p.minute >= 0 && p.second >= 0 && ClockValue(p.hour, p.minute, p.second) == value - value % SECOND
  {
    var p := TimeParts(value);
    PartsAddUp(value);
    var n := p.hour * 3600 + p.minute * 60 + p.second;
    assert value == n * SECOND + p.micros;
    Remainder(n, p.micros);
  }

  lemma Remainder(n: int, r: int)
    requires 0 <= r < SECOND
    ensures (n * SECOND + r) % SECOND == r
  {
  }

  /** Formatting and parsing drops the fraction of a second, and 24:00 does not parse. */
  lemma ParseFormatted(value: Micros)
    requires TimeOfDay(value)
    ensures ParseClock(FormatClock(value)) == if value < DAY then Some(value - value % SECOND) else None
  {
    var p := TimeParts(value);
    HourInDay(value);
    ParseClockText(p.hour, p.minute, p.second);
    if value < DAY { WholeSeconds(value); }
  }

  /** ParseClock inverts FormatClock exactly on the whole-second times before 24:00. */
  lemma ParseInvertsFormatIff(value: Micros)
    requires TimeOfDay(value)
    ensures ParseClock(FormatClock(value)) == Some(value) <==> value < DAY && value % SECOND == 0
  {
    ParseFormatted(value);
  }

  lemma ParsedParts(value: string)
    requires ParseClock(value).Some?
    ensures exists h: nat, m: nat, s: nat :: h < 24 && m < 60 && s < 60 && ParseClock(value).value == ClockValue(h, m, s)
  {
    var (hour, minute, rest) := ParseHourMinute(TrimSpace(value)).value;
    if rest == "" {
      assert ParseClock(value).value == ClockValue(hour, minute, 0);
    } else {
      assert ParseClock(value).value == ClockValue(hour, minute, ParseSecond(rest).value.0);
    }
  }

  /** What ParseClock accepts is a whole second before 24:00, and formatting it loses nothing. */
  lemma FormatAfterParse(value: string)
    requires ParseClock(value).Some?
    ensures var m := ParseClock(value).value; 0 <= m < DAY && m % SECOND == 0 && ParseClock(FormatClock(m)) == Some(m)
  {
    ParsedParts(value);
    var h: nat, m: nat, s: nat :| h < 24 && m < 60 && s < 60 && ParseClock(value).value == ClockValue(h, m, s);
    ClockValueInDay(h, m, s);
    ParseInvertsFormatIff(ClockValue(h, m, s));
  }

  /** Windows of periods entered as clock strings are never empty. */
  lemma ParsedWindowsOpen(x: Micros, offset: Micros, daysOfWeek: seq<int>, start: string, end: string)
    requires ParseClock(start).Some? && ParseClock(end).Some?
    ensures ParseClock(start).value >= 0 && ParseClock(end).value >= 0
    ensures var w := WindowForDate(x, offset, daysOfWeek, ParseClock(start).value, ParseClock(end).value);
            w.Some? ==> w.value.0 < w.value.1 <= w.value.0 + DAY
  {
    FormatAfterParse(start);
    FormatAfterParse(end);
    if WindowForDate(x, offset, daysOfWeek, ParseClock(start).value, ParseClock(end).value).Some? {
      WindowLength(x, offset, daysOfWeek, ParseClock(start).value, ParseClock(end).value);
    }
  }
}
