/** The projection tables updated in place: deletes, then inserts that fail on a key already there. */
module RebuildStore {
  import opened Common
  import opened Operations
  import opened Analytics
  import opened Rebuild

  ghost predicate AllDifferent<T>(s: seq<T>) {
    forall i, j :: 0 <= i < j < |s| ==> s[i] != s[j]
  }

  /** Primary keys of the operational tables. */
  ghost predicate DistinctRows(src: OperationalRows) {
    (forall i, j :: 0 <= i < j < |src.tables| ==> src.tables[i].id != src.tables[j].id) && AllDifferent(src.periods)
  }

  // ---------------------------------------------------------------- no insert meets its own key

  lemma {:induction false} FloorsDiffer(tables: seq<TableRow>)
    ensures AllDifferent(Floors(tables)) && forall g :: g in Floors(tables) ==> g.FloorGroup?
  {
    if tables != [] { FloorsDiffer(tables[..|tables| - 1]); }
  }

  lemma {:induction false} ZonesDiffer(tables: seq<TableRow>)
    ensures AllDifferent(Zones(tables)) && forall g :: g in Zones(tables) ==> g.ZoneGroup?
  {
    if tables != [] { ZonesDiffer(tables[..|tables| - 1]); }
  }

  lemma {:induction false} PeriodsDiffer(periods: seq<Id>, cal: Calendar, d: Date)
    requires AllDifferent(periods)
    ensures AllDifferent(Periods(periods, cal, d))
    ensures forall g :: g in Periods(periods, cal, d) ==> g.PeriodGroup? && g.period in periods && cal.periodWindow(g.period, d).Some?
  {
    if periods != [] {
      var rest := periods[..|periods| - 1];
      PeriodsDiffer(rest, cal, d);
      assert periods[|periods| - 1] !in rest;
    }
  }

  function Rank(g: Group): nat {
    match g
    case LocationGroup => 0
    case FloorGroup(_) => 1
    case ZoneGroup(_) => 2
    case TableGroup(_) => 3
    case PeriodGroup(_) => 4
  }

  lemma RankedAppend(a: seq<Group>, b: seq<Group>, k: nat)
    requires AllDifferent(a) && AllDifferent(b) && (forall g :: g in a ==> Rank(g) < k) && (forall g :: g in b ==> Rank(g) == k)
    ensures AllDifferent(a + b) && forall g :: g in a + b ==> Rank(g) < k + 1
  {
    forall i, j | 0 <= i < j < |a + b| ensures (a + b)[i] != (a + b)[j] {
      if i < |a| <= j { assert (a + b)[i] in a && (a + b)[j] in b; }
    }
  }

  /** The groups of a date differ, and so do those of each step of `ProjectDay`. */
  lemma GroupsDiffer(src: OperationalRows, cal: Calendar, d: Date)
    requires DistinctRows(src)
    ensures var floors, zones, tables := Floors(src.tables), Zones(src.tables), DayTables(src.tables);
            && AllDifferent([LocationGroup] + floors) && AllDifferent([LocationGroup] + floors + zones)
            && AllDifferent([LocationGroup] + floors + zones + tables) && AllDifferent(GroupsOn(src, cal, d))
  {
    var floors, zones, tables, periods := Floors(src.tables), Zones(src.tables), DayTables(src.tables), Periods(src.periods, cal, d);
    FloorsDiffer(src.tables);
    ZonesDiffer(src.tables);
    PeriodsDiffer(src.periods, cal, d);
    RankedAppend([LocationGroup], floors, 1);
    RankedAppend([LocationGroup] + floors, zones, 2);
    RankedAppend([LocationGroup] + floors + zones, tables, 3);
    RankedAppend([LocationGroup] + floors + zones + tables, periods, 4);
  }

  ghost predicate StartBefore(buckets: seq<(Time, Time)>, x: Time) {
    forall i :: 0 <= i < |buckets| ==> buckets[i].0 < x
  }

  lemma NextBucket(done: seq<(Time, Time)>, start: Time, hi: Time, hour: Time, all: seq<(Time, Time)>)
    requires hour > 0 && start < hi && done + Hours(start, hi, hour) == all && StartBefore(done, start)
    ensures var b := (start, Min(start + hour, hi)); done + [b] + Hours(b.1, hi, hour) == all && StartBefore(done + [b], start + hour)
  {
    var b := (start, Min(start + hour, hi));
    assert done + [b] + Hours(b.1, hi, hour) == done + ([b] + Hours(b.1, hi, hour));
  }

  lemma NextHour(base: map<HourKey, Row>, src: OperationalRows, cal: Calendar, done: seq<(Time, Time)>, b: (Time, Time), d: Date)
    ensures InsertAll(InsertAll(base, HourlyRows(src, cal, done, d)), HourRows(src, cal, b.0, d)) == InsertAll(base, HourlyRows(src, cal, done + [b], d))
  {
    InsertAppend(base, HourlyRows(src, cal, done, d), HourRows(src, cal, b.0, d));
    assert (done + [b])[..|done|] == done;
  }

  lemma EmptyRange(p: Projection, src: OperationalRows, cal: Calendar, from: Date, until: Date)
    requires cal.hour > 0 && until <= from
    ensures RebuiltRange(p, src, cal, from, until) == p
  {
  }

  lemma RangeStep(p: Projection, src: OperationalRows, cal: Calendar, from: Date, day: Date)
    requires cal.hour > 0 && from <= day
    ensures RebuiltRange(p, src, cal, from, day + 1) == RebuiltDay(RebuiltRange(p, src, cal, from, day), src, cal, day)
  {
  }

  lemma {:induction false} InsertAppend<K, V>(m: map<K, V>, a: seq<(K, V)>, b: seq<(K, V)>)
    ensures InsertAll(InsertAll(m, a), b) == InsertAll(m, a + b)
  {
    if b == [] {
      assert a + b == a;
    } else {
      InsertAppend(m, a, b[..|b| - 1]);
      assert (a + b)[..|a + b| - 1] == a + b[..|b| - 1];
    }
  }

  /** What the next insert of a date finds and leaves. */
  lemma NextDaily(base: map<DayKey, Row>, src: OperationalRows, cal: Calendar, groups: seq<Group>, g: Group, d: Date)
    requires g !in groups && (g, d) !in base
    ensures (g, d) !in InsertAll(base, DailyRows(src, cal, groups, d))
    ensures InsertAll(base, DailyRows(src, cal, groups, d))[(g, d) := DailyRow(src, cal, g, d)] == InsertAll(base, DailyRows(src, cal, groups + [g], d))
  {
    var rows := DailyRows(src, cal, groups, d);
    if (g, d) in InsertAll(base, rows) { InsertedKey(base, rows, (g, d)); }
    assert DailyRows(src, cal, groups + [g], d)[..|groups|] == rows;
  }

  lemma NextHourly(base: map<HourKey, Row>, src: OperationalRows, cal: Calendar, n: nat, start: Time, d: Date)
    requires DistinctRows(src) && n < |src.tables| && (src.tables[n].id, start) !in base
    ensures var t := src.tables[n].id; var rows := HourRows(src, cal, start, d);
            && (t, start) !in InsertAll(base, rows[..n])
            && InsertAll(base, rows[..n])[(t, start) := HourlyRow(src, cal, t, start, d)] == InsertAll(base, rows[..n + 1])
  {
    var t, rows := src.tables[n].id, HourRows(src, cal, start, d);
    if (t, start) in InsertAll(base, rows[..n]) { InsertedKey(base, rows[..n], (t, start)); }
    assert rows[..n + 1][..n] == rows[..n];
  }

  /** An hour of the date finds no row at its start when the hours before it started earlier. */
  lemma HourIsFree(base: map<HourKey, Row>, src: OperationalRows, cal: Calendar, buckets: seq<(Time, Time)>, d: Date, start: Time)
    requires InDate(cal, start, d) && (forall k :: k in base ==> !InDate(cal, k.1, d)) && StartBefore(buckets, start)
    ensures forall t: Id :: (t, start) !in InsertAll(base, HourlyRows(src, cal, buckets, d))
  {
    HourlyRowsAre(src, cal, buckets, d);
    forall t: Id ensures (t, start) !in InsertAll(base, HourlyRows(src, cal, buckets, d)) {
      if (t, start) in InsertAll(base, HourlyRows(src, cal, buckets, d)) { InsertedKey(base, HourlyRows(src, cal, buckets, d), (t, start)); }
    }
  }

  lemma RowsOpen(src: OperationalRows, cal: Calendar, d: Date)
    requires ValidCalendar(cal)
    ensures forall g :: DailyRow(src, cal, g, d).bucketStart < DailyRow(src, cal, g, d).bucketEnd
    ensures forall t, x :: x < cal.midnight(d + 1) ==> HourlyRow(src, cal, t, x, d).bucketStart < HourlyRow(src, cal, t, x, d).bucketEnd
  {
  }

  // ---------------------------------------------------------------- the tables

  class Tables {
    const src: OperationalRows
    const cal: Calendar
    var daily: map<DayKey, Row>
    var hourly: map<HourKey, Row>

    function Contents(): Projection
      reads this
    {
      Projection(daily, hourly)
    }

    constructor (src: OperationalRows, cal: Calendar)
      ensures this.src == src && this.cal == cal && Contents() == Projection(map[], map[])
    {
      this.src, this.cal := src, cal;
      daily, hourly := map[], map[];
    }

    method InsertDaily(k: DayKey, row: Row) returns (ok: bool)
      modifies `daily
      ensures ok == (k !in old(daily) && row.bucketStart < row.bucketEnd)
      ensures daily == if ok then old(daily)[k := row] else old(daily)
    {
      if k in daily || row.bucketEnd <= row.bucketStart { return false; }
      daily := daily[k := row];
      return true;
    }

    method InsertHourly(k: HourKey, row: Row) returns (ok: bool)
      modifies `hourly
      ensures ok == (k !in old(hourly) && row.bucketStart < row.bucketEnd)
      ensures hourly == if ok then old(hourly)[k := row] else old(hourly)
    {
      if k in hourly || row.bucketEnd <= row.bucketStart { return false; }
      hourly := hourly[k := row];
      return true;
    }

    method ClearProjectionDay(day: Date)
      modifies this
      ensures Contents() == Cleared(old(Contents()), cal, day)
    {
      hourly := map k | k in hourly && !(cal.midnight(day) <= k.1 < cal.midnight(day + 1)) :: hourly[k];
      daily := map k | k in daily && k.1 != day :: daily[k];
    }

    /** One aggregate and one insert per group, after the groups already done. */
    method ProjectGroups(ghost base: map<DayKey, Row>, ghost done: seq<Group>, groups: seq<Group>, day: Date) returns (ok: bool)
      requires ValidCalendar(cal) && AllDifferent(done + groups) && forall g :: (g, day) !in base
      requires daily == InsertAll(base, DailyRows(src, cal, done, day))
      modifies `daily
      ensures ok && daily == InsertAll(base, DailyRows(src, cal, done + groups, day))
    {
      assert done + groups[..0] == done;
      for i := 0 to |groups|
        invariant daily == InsertAll(base, DailyRows(src, cal, done + groups[..i], day))
      {
        var g := groups[i];
        RowsOpen(src, cal, day);
        assert (done + groups)[|done| + i] == g && (done + groups)[..|done| + i] == done + groups[..i];
        NextDaily(base, src, cal, done + groups[..i], g, day);
        assert done + groups[..i] + [g] == done + groups[..i + 1];
        var inserted := InsertDaily((g, day), DailyRow(src, cal, g, day));
        if !inserted { return false; }
      }
      assert groups[..|groups|] == groups;
      return true;
    }

    /** The tables of one hour. */
    method ProjectHour(day: Date, start: Time) returns (ok: bool)
      requires ValidCalendar(cal) && DistinctRows(src) && start < cal.midnight(day + 1)
      requires forall t: Id :: (t, start) !in hourly
      modifies `hourly
      ensures ok && hourly == InsertAll(old(hourly), HourRows(src, cal, start, day))
    {
      ghost var rows := HourRows(src, cal, start, day);
      for n := 0 to |src.tables|
        invariant hourly == InsertAll(old(hourly), rows[..n])
      {
        var t := src.tables[n].id;
        RowsOpen(src, cal, day);
        NextHourly(old(hourly), src, cal, n, start, day);
        var inserted := InsertHourly((t, start), HourlyRow(src, cal, t, start, day));
        if !inserted { return false; }
      }
      assert rows[..|src.tables|] == rows;
      return true;
    }

    /** The hour loop: buckets of an hour, the last one cut at the end of the day. */
    method ProjectHours(day: Date) returns (ok: bool)
      requires ValidCalendar(cal) && DistinctRows(src) && forall k :: k in hourly ==> !InDate(cal, k.1, day)
      modifies `hourly
      ensures ok && hourly == InsertAll(old(hourly), HourlyRows(src, cal, BucketsOn(cal, day), day))
    {
      var dayStart, dayEnd := cal.midnight(day), cal.midnight(day + 1);
      var hourStart := dayStart;
      ghost var base, all := hourly, BucketsOn(cal, day);
      ghost var done: seq<(Time, Time)>, at := [], dayStart;
      while hourStart < dayEnd
        invariant dayStart <= hourStart && StartBefore(done, hourStart)
        invariant at == (if hourStart < dayEnd then hourStart else dayEnd) && done + Hours(at, dayEnd, cal.hour) == all
        invariant hourly == InsertAll(base, HourlyRows(src, cal, done, day))
        decreases dayEnd - hourStart
      {
        ghost var b := (hourStart, Min(hourStart + cal.hour, dayEnd));
        HourIsFree(base, src, cal, done, day, hourStart);
        NextHour(base, src, cal, done, b, day);
        NextBucket(done, hourStart, dayEnd, cal.hour, all);
        var inserted := ProjectHour(day, hourStart);
        if !inserted { return false; }
        done, at := done + [b], b.1;
        hourStart := hourStart + cal.hour;
      }
      assert done + [] == done;
      return true;
    }

    /** Location, floors, zones, tables, hours and service periods, in this order. */
    method ProjectDay(day: Date) returns (ok: bool)
      requires ValidCalendar(cal) && DistinctRows(src)
      requires (forall k :: k in daily ==> k.1 != day) && (forall k :: k in hourly ==> !InDate(cal, k.1, day))
      modifies this
      ensures ok && daily == InsertAll(old(daily), DailyRows(src, cal, GroupsOn(src, cal, day), day))
      ensures hourly == InsertAll(old(hourly), HourlyRows(src, cal, BucketsOn(cal, day), day))
    {
      ghost var base, all := daily, GroupsOn(src, cal, day);
      var floors, zones, tables, periods := Floors(src.tables), Zones(src.tables), DayTables(src.tables), Periods(src.periods, cal, day);
      GroupsDiffer(src, cal, day);
      ok := ProjectGroups(base, [], [LocationGroup], day);
      assert [] + [LocationGroup] == [LocationGroup];
      ok := ProjectGroups(base, [LocationGroup], floors, day);
      ok := ProjectGroups(base, [LocationGroup] + floors, zones, day);
      ok := ProjectGroups(base, [LocationGroup] + floors + zones, tables, day);
      ok := ProjectHours(day);
      ok := ProjectGroups(base, [LocationGroup] + floors + zones + tables, periods, day);
    }

    method RebuildDay(day: Date) returns (ok: bool)
      requires ValidCalendar(cal) && DistinctRows(src)
      modifies this
      ensures ok && Contents() == RebuiltDay(old(Contents()), src, cal, day)
    {
      ClearProjectionDay(day);
      ok := ProjectDay(day);
    }

    /** Clears and projects each date in turn, counting them. */
    method RebuildRange(from: Date, until: Date) returns (ok: bool, daysProcessed: nat)
      requires ValidCalendar(cal) && DistinctRows(src)
      modifies this
      ensures ok && daysProcessed == Max(0, until - from)
      ensures Contents() == RebuiltRange(old(Contents()), src, cal, from, until)
    {
      daysProcessed := 0;
      var day := from;
      ghost var start := Contents();
      ghost var reached := start;
      EmptyRange(start, src, cal, from, from);
      while day < until
        invariant from <= day && (day <= until || day == from) && daysProcessed == day - from
        invariant Contents() == reached && reached == RebuiltRange(start, src, cal, from, day)
        decreases until - day
      {
        RangeStep(start, src, cal, from, day);
        reached := RebuiltDay(reached, src, cal, day);
        ok := RebuildDay(day);
        if !ok { return; }
        daysProcessed := daysProcessed + 1;
        day := day + 1;
      }
      if until <= from { EmptyRange(start, src, cal, from, until); }
      ok := true;
    }
  }
}
