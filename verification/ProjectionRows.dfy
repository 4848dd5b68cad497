/** Which rows a rebuilt date has in a zone with a fixed offset, and over which window and tables each is computed. */
module ProjectionRows {
  import opened Common
  import opened Operations
  import opened Analytics
  import opened Rebuild
  import S = ServicePeriods
  import ProjectionTotals

  /** The row over a window and some tables, computed as of the window's end. */
  function RowOver(src: OperationalRows, tables: set<Id>, lo: Time, hi: Time): Row {
    Row(lo, hi, WindowMetric(src.facts, tables, lo, hi, hi))
  }

  function AllTables(src: OperationalRows): set<Id> {
    set r | r in src.tables :: r.id
  }

  function OnFloor(src: OperationalRows, f: Id): set<Id> {
    set r | r in src.tables && r.floor == f :: r.id
  }

  function InZone(src: OperationalRows, z: Id): set<Id> {
    set r | r in src.tables && r.zone == z :: r.id
  }

  lemma {:induction false} FloorsAre(tables: seq<TableRow>, g: Group)
    ensures g in Floors(tables) <==> g.FloorGroup? && exists r :: r in tables && r.floor == g.floor
  {
    if tables != [] {
      var rest, last := tables[..|tables| - 1], tables[|tables| - 1];
      FloorsAre(rest, g);
      assert tables == rest + [last];
    }
  }

  lemma {:induction false} ZonesAre(tables: seq<TableRow>, g: Group)
    ensures g in Zones(tables) <==> g.ZoneGroup? && exists r :: r in tables && r.zone == g.zone
  {
    if tables != [] {
      var rest, last := tables[..|tables| - 1], tables[|tables| - 1];
      ZonesAre(rest, g);
      assert tables == rest + [last];
    }
  }

  lemma TablesAre(tables: seq<TableRow>, g: Group)
    ensures g in DayTables(tables) <==> g.TableGroup? && exists r :: r in tables && r.id == g.table
  {
    if g in DayTables(tables) {
      var i :| 0 <= i < |tables| && DayTables(tables)[i] == g;
      assert tables[i] in tables && tables[i].id == g.table;
    }
    if g.TableGroup? && exists r :: r in tables && r.id == g.table {
      var i :| 0 <= i < |tables| && tables[i].id == g.table;
      assert DayTables(tables)[i] == g;
    }
  }

  lemma {:induction false} PeriodsAre(periods: seq<Id>, cal: Calendar, d: Date, g: Group)
    ensures g in Periods(periods, cal, d) <==> g.PeriodGroup? && g.period in periods && cal.periodWindow(g.period, d).Some?
  {
    if periods != [] {
      var rest, last := periods[..|periods| - 1], periods[|periods| - 1];
      PeriodsAre(rest, cal, d, g);
      assert periods == rest + [last];
    }
  }

  lemma GroupsAre(src: OperationalRows, cal: Calendar, d: Date, g: Group)
    ensures g in GroupsOn(src, cal, d) <==>
            match g
            case LocationGroup => true
            case FloorGroup(f) => exists r :: r in src.tables && r.floor == f
            case ZoneGroup(z) => exists r :: r in src.tables && r.zone == z
            case TableGroup(t) => exists r :: r in src.tables && r.id == t
            case PeriodGroup(p) => p in src.periods && cal.periodWindow(p, d).Some?
  {
    FloorsAre(src.tables, g);
    ZonesAre(src.tables, g);
    TablesAre(src.tables, g);
    PeriodsAre(src.periods, cal, d, g);
  }

  // ---------------------------------------------------------------- daily rows

  /** The window of a period on a date: from its start time to its end time, the latter on the next date if it is not later. */
  function PeriodWindow(offset: Time, p: Period, d: Date): (Time, Time) {
    (d * S.DAY + p.start - offset, d * S.DAY + p.end - offset + if p.end <= p.start then S.DAY else 0)
  }

  /** The daily row that a group has on a date, if it has one. */
  ghost function DailyRowFor(src: OperationalRows, offset: Time, periods: map<Id, Period>, d: Date, g: Group): Option<Row> {
    var lo, hi := d * S.DAY - offset, (d + 1) * S.DAY - offset;
    match g
    case LocationGroup => Some(RowOver(src, AllTables(src), lo, hi))
    case FloorGroup(f) => if exists r :: r in src.tables && r.floor == f then Some(RowOver(src, OnFloor(src, f), lo, hi)) else None
    case ZoneGroup(z) => if exists r :: r in src.tables && r.zone == z then Some(RowOver(src, InZone(src, z), lo, hi)) else None
    case TableGroup(t) => if exists r :: r in src.tables && r.id == t then Some(RowOver(src, {t}, lo, hi)) else None
    case PeriodGroup(p) =>
      if p in src.periods && p in periods && S.Weekday(d) in periods[p].daysOfWeek
      then var w := PeriodWindow(offset, periods[p], d); Some(RowOver(src, AllTables(src), w.0, w.1)) else None
  }

  ghost predicate AllEntered(periods: map<Id, Period>) {
    forall p :: p in periods ==> EnteredAsClock(periods[p])
  }

  lemma EnteredIsTimeOfDay(p: Period)
    requires EnteredAsClock(p)
    ensures S.TimeOfDay(p.start) && S.TimeOfDay(p.end)
  {
    var start, end :| S.ParseClock(start) == Some(p.start) && S.ParseClock(end) == Some(p.end);
    S.FormatAfterParse(start);
    S.FormatAfterParse(end);
  }

  lemma WindowOnDate(offset: Time, p: Period, d: Date)
    requires EnteredAsClock(p)
    ensures p.start >= 0 && p.end >= 0
    ensures S.WindowForDate(FixedMidnight(d, offset), offset, p.daysOfWeek, p.start, p.end) ==
            if S.Weekday(d) in p.daysOfWeek then Some(PeriodWindow(offset, p, d)) else None
  {
    EnteredIsTimeOfDay(p);
    assert S.LocalDate(FixedMidnight(d, offset), offset) == d;
    if S.Weekday(d) in p.daysOfWeek { S.WindowBounds(FixedMidnight(d, offset), offset, p.daysOfWeek, p.start, p.end); }
  }

  lemma PeriodRuns(offset: Time, periods: map<Id, Period>, p: Id, d: Date)
    requires AllEntered(periods)
    ensures FixedCalendar(offset, periods).periodWindow(p, d) ==
            if p in periods && S.Weekday(d) in periods[p].daysOfWeek then Some(PeriodWindow(offset, periods[p], d)) else None
  {
    if p in periods { WindowOnDate(offset, periods[p], d); }
  }

  lemma OneTable(src: OperationalRows, t: Id)
    requires exists r :: r in src.tables && r.id == t
    ensures ScopedTables(src, TableGroup(t)) == {t}
  {
    var r :| r in src.tables && r.id == t;
    assert t in ScopedTables(src, TableGroup(t));
  }

  lemma DayRowIs(src: OperationalRows, offset: Time, periods: map<Id, Period>, d: Date, g: Group)
    requires !g.PeriodGroup?
    ensures DailyRow(src, FixedCalendar(offset, periods), g, d) == RowOver(src, ScopedTables(src, g), d * S.DAY - offset, (d + 1) * S.DAY - offset)
  {
  }

  lemma PeriodRowIs(src: OperationalRows, cal: Calendar, d: Date, p: Id)
    requires cal.periodWindow(p, d).Some?
    ensures DailyRow(src, cal, PeriodGroup(p), d) == RowOver(src, AllTables(src), cal.periodWindow(p, d).value.0, cal.periodWindow(p, d).value.1)
  {
  }

  lemma DailyRowIs(src: OperationalRows, offset: Time, periods: map<Id, Period>, d: Date, g: Group)
    requires AllEntered(periods)
    ensures var cal := FixedCalendar(offset, periods);
            DailyRowFor(src, offset, periods, d, g) == if g in GroupsOn(src, cal, d) then Some(DailyRow(src, cal, g, d)) else None
  {
    var cal := FixedCalendar(offset, periods);
    GroupsAre(src, cal, d, g);
    match g
    case PeriodGroup(p) =>
      PeriodRuns(offset, periods, p, d);
      if cal.periodWindow(p, d).Some? { PeriodRowIs(src, cal, d, p); }
    case TableGroup(t) =>
      DayRowIs(src, offset, periods, d, g);
      if exists r :: r in src.tables && r.id == t { OneTable(src, t); }
    case _ =>
      DayRowIs(src, offset, periods, d, g);
  }

  /** After a rebuild over a date each group has exactly the row written out above: location, floors, zones, tables and running periods. */
  lemma RebuiltDailyRow(p: Projection, src: OperationalRows, offset: Time, periods: map<Id, Period>, from: Date, until: Date, d: Date, g: Group)
    requires AllEntered(periods) && from <= d < until
    ensures Lookup(RebuiltRange(p, src, FixedCalendar(offset, periods), from, until).daily, (g, d)) == DailyRowFor(src, offset, periods, d, g)
  {
    var cal := FixedCalendar(offset, periods);
    FixedCalendarIsValid(offset, periods);
    RebuildReplaces(p, src, cal, from, until);
    assert ReplacesDate(p, RebuiltRange(p, src, cal, from, until), src, cal, from, until, (g, d));
    DailyOnRows(src, cal, d, (g, d));
    DailyRowIs(src, offset, periods, d, g);
  }

  // ---------------------------------------------------------------- hourly rows

  ghost predicate StartsABucket(lo: Time, hi: Time, x: Time) {
    exists j :: 0 <= j < |Hours(lo, hi, S.HOUR)| && Hours(lo, hi, S.HOUR)[j].0 == x
  }

  lemma FirstBucket(lo: Time, hi: Time, x: Time)
    requires lo + S.HOUR <= hi
    ensures StartsABucket(lo, hi, x) <==> x == lo || StartsABucket(lo + S.HOUR, hi, x)
  {
    var all, rest := Hours(lo, hi, S.HOUR), Hours(lo + S.HOUR, hi, S.HOUR);
    assert all == [(lo, lo + S.HOUR)] + rest;
    assert all[0].0 == lo;
    if j :| 0 <= j < |rest| && rest[j].0 == x { assert all[j + 1].0 == x; }
    if j :| 0 <= j < |all| && all[j].0 == x { assert j > 0 ==> rest[j - 1].0 == x; }
  }

  /** The buckets of a stretch of whole hours start every hour. */
  lemma {:induction false} WholeHours(lo: Time, hi: Time, x: Time)
    requires lo <= hi && (hi - lo) % S.HOUR == 0 && lo <= x < hi
    ensures StartsABucket(lo, hi, x) <==> (x - lo) % S.HOUR == 0
    decreases hi - lo
  {
    FirstBucket(lo, hi, x);
    if x < lo + S.HOUR {
      LaterHours(lo + S.HOUR, hi, x);
    } else {
      WholeHours(lo + S.HOUR, hi, x);
    }
  }

  lemma LaterHours(lo: Time, hi: Time, x: Time)
    requires x < lo
    ensures !StartsABucket(lo, hi, x)
  {
    forall j | 0 <= j < |Hours(lo, hi, S.HOUR)| ensures Hours(lo, hi, S.HOUR)[j].0 != x { HoursInside(lo, hi, S.HOUR, j); }
  }

  /** The hourly row that a table has at an instant of a date, if it has one: every full hour after local midnight. */
  ghost function HourlyRowFor(src: OperationalRows, offset: Time, d: Date, t: Id, x: Time): Option<Row> {
    if (exists r :: r in src.tables && r.id == t) && (x + offset) % S.HOUR == 0 then Some(RowOver(src, {t}, x, x + S.HOUR)) else None
  }

  lemma FullHour(offset: Time, d: Date, x: Time)
    requires d * S.DAY - offset <= x < (d + 1) * S.DAY - offset
    ensures (x - (d * S.DAY - offset)) % S.HOUR == (x + offset) % S.HOUR
    ensures (x + offset) % S.HOUR == 0 ==> x + S.HOUR <= (d + 1) * S.DAY - offset
  {
    assert d * S.DAY == 24 * d * S.HOUR;
  }

  lemma HourlyRowIs(src: OperationalRows, offset: Time, periods: map<Id, Period>, d: Date, t: Id, x: Time)
    requires InDate(FixedCalendar(offset, periods), x, d)
    ensures Lookup(HourlyOn(src, FixedCalendar(offset, periods), d), (t, x)) == HourlyRowFor(src, offset, d, t, x)
  {
    var cal := FixedCalendar(offset, periods);
    HourlyOnRows(src, cal, d, (t, x));
    FullHour(offset, d, x);
    WholeHours(cal.midnight(d), cal.midnight(d + 1), x);
    assert BucketsOn(cal, d) == Hours(cal.midnight(d), cal.midnight(d + 1), S.HOUR);
    assert (exists i :: 0 <= i < |src.tables| && src.tables[i].id == t) <==> exists r :: r in src.tables && r.id == t;
    if exists r :: r in src.tables && r.id == t { OneTable(src, t); }
  }

  /** After a rebuild over a date each active table has exactly one row per full hour of it, over that hour. */
  lemma RebuiltHourlyRow(p: Projection, src: OperationalRows, offset: Time, periods: map<Id, Period>, from: Date, until: Date, d: Date, t: Id, x: Time)
    requires AllEntered(periods) && from <= d < until && InDate(FixedCalendar(offset, periods), x, d)
    ensures Lookup(RebuiltRange(p, src, FixedCalendar(offset, periods), from, until).hourly, (t, x)) == HourlyRowFor(src, offset, d, t, x)
  {
    var cal := FixedCalendar(offset, periods);
    FixedCalendarIsValid(offset, periods);
    ProjectionTotals.RebuildHoldsDate(p, src, cal, from, until, d);
    HourlyRowIs(src, offset, periods, d, t, x);
  }
}
