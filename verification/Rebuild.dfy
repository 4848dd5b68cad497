/**
 The daily and hourly projection of `internal/domain/analytics/projection.go` as a function of the
 operational rows, and what clearing and projecting a range of dates does to it.
 */
module Rebuild {
  import opened Common
  import opened Operations
  import opened Analytics
  import S = ServicePeriods

  /** A calendar date, counted in days. */
  type Date = int

  datatype TableRow = TableRow(id: Id, floor: Id, zone: Id)

  /** The five daily tables as one, keyed by what a row is about. */
  datatype Group = LocationGroup | FloorGroup(floor: Id) | ZoneGroup(zone: Id) | TableGroup(table: Id) | PeriodGroup(period: Id)

  datatype Row = Row(bucketStart: Time, bucketEnd: Time, metric: Metric)

  type DayKey = (Group, Date)

  type HourKey = (Id, Time)

  datatype Projection = Projection(daily: map<(Group, Date), Row>, hourly: map<(Id, Time), Row>)

  /** The active tables and service periods, and the rows the aggregates read. */
  datatype OperationalRows = OperationalRows(facts: Facts, tables: seq<TableRow>, periods: seq<Id>)

  /** Local midnights, the window of a service period on a date if it runs then, and the length of an hour. */
  datatype Calendar = Calendar(midnight: Date -> Time, periodWindow: (Id, Date) -> Option<(Time, Time)>, hour: Time)

  /** Midnights ascend, so that each date ends where the next one starts, and no window is empty. */
  ghost predicate ValidCalendar(cal: Calendar) {
    && cal.hour > 0
    && (forall c, d :: c < d ==> cal.midnight(c) < cal.midnight(d))
    && (forall p, d :: cal.periodWindow(p, d).Some? ==> cal.periodWindow(p, d).value.0 < cal.periodWindow(p, d).value.1)
  }

  // ---------------------------------------------------------------- the rows of a date

  function TableIds(src: OperationalRows): set<Id> {
    set r | r in src.tables :: r.id
  }

  /** The scope filter of the aggregate. */
  function ScopedTables(src: OperationalRows, g: Group): set<Id> {
    match g
    case TableGroup(t) => set r | r in src.tables && r.id == t :: r.id
    case FloorGroup(f) => set r | r in src.tables && r.floor == f :: r.id
    case ZoneGroup(z) => set r | r in src.tables && r.zone == z :: r.id
    case _ => TableIds(src)
  }

  /** `SELECT DISTINCT floor_id`, and likewise of zones. */
  function Floors(tables: seq<TableRow>): seq<Group> {
    if tables == [] then []
    else
      var rest, g := Floors(tables[..|tables| - 1]), FloorGroup(tables[|tables| - 1].floor);
      if g in rest then rest else rest + [g]
  }

  function Zones(tables: seq<TableRow>): seq<Group> {
    if tables == [] then []
    else
      var rest, g := Zones(tables[..|tables| - 1]), ZoneGroup(tables[|tables| - 1].zone);
      if g in rest then rest else rest + [g]
  }

  function DayTables(tables: seq<TableRow>): seq<Group> {
    seq(|tables|, i requires 0 <= i < |tables| => TableGroup(tables[i].id))
  }

  /** The service periods that run on a date. */
  function Periods(periods: seq<Id>, cal: Calendar, d: Date): seq<Group> {
    if periods == [] then []
    else
      var rest, p := Periods(periods[..|periods| - 1], cal, d), periods[|periods| - 1];
      if cal.periodWindow(p, d).Some? then rest + [PeriodGroup(p)] else rest
  }

  function GroupsOn(src: OperationalRows, cal: Calendar, d: Date): seq<Group> {
    [LocationGroup] + Floors(src.tables) + Zones(src.tables) + DayTables(src.tables) + Periods(src.periods, cal, d)
  }

  function WindowOf(cal: Calendar, g: Group, d: Date): (Time, Time) {
    if g.PeriodGroup? && cal.periodWindow(g.period, d).Some? then cal.periodWindow(g.period, d).value
    else (cal.midnight(d), cal.midnight(d + 1))
  }

  function DailyRow(src: OperationalRows, cal: Calendar, g: Group, d: Date): Row {
    var w := WindowOf(cal, g, d);
    Row(w.0, w.1, WindowMetric(src.facts, ScopedTables(src, g), w.0, w.1, w.1))
  }

  function HourlyRow(src: OperationalRows, cal: Calendar, t: Id, start: Time, d: Date): Row {
    var end := Min(start + cal.hour, cal.midnight(d + 1));
    Row(start, end, WindowMetric(src.facts, ScopedTables(src, TableGroup(t)), start, end, end))
  }

  /** The inserts for some groups, in order. */
  function DailyRows(src: OperationalRows, cal: Calendar, groups: seq<Group>, d: Date): seq<(DayKey, Row)> {
    seq(|groups|, i requires 0 <= i < |groups| => ((groups[i], d), DailyRow(src, cal, groups[i], d)))
  }

  /** The inserts of one hour. */
  function HourRows(src: OperationalRows, cal: Calendar, start: Time, d: Date): seq<(HourKey, Row)> {
    seq(|src.tables|, i requires 0 <= i < |src.tables| => ((src.tables[i].id, start), HourlyRow(src, cal, src.tables[i].id, start, d)))
  }

  /** The inserts of the hour loop over some buckets. */
  function HourlyRows(src: OperationalRows, cal: Calendar, buckets: seq<(Time, Time)>, d: Date): seq<(HourKey, Row)> {
    if buckets == [] then []
    else HourlyRows(src, cal, buckets[..|buckets| - 1], d) + HourRows(src, cal, buckets[|buckets| - 1].0, d)
  }

  function BucketsOn(cal: Calendar, d: Date): seq<(Time, Time)>
    requires cal.hour > 0
  {
    Hours(cal.midnight(d), cal.midnight(d + 1), cal.hour)
  }

  function InsertAll<K, V>(m: map<K, V>, rows: seq<(K, V)>): map<K, V> {
    if rows == [] then m else InsertAll(m, rows[..|rows| - 1])[rows[|rows| - 1].0 := rows[|rows| - 1].1]
  }

  function DailyOn(src: OperationalRows, cal: Calendar, d: Date): map<DayKey, Row> {
    InsertAll(map[], DailyRows(src, cal, GroupsOn(src, cal, d), d))
  }

  function HourlyOn(src: OperationalRows, cal: Calendar, d: Date): map<HourKey, Row>
    requires cal.hour > 0
  {
    InsertAll(map[], HourlyRows(src, cal, BucketsOn(cal, d), d))
  }

  // ---------------------------------------------------------------- clear, project, rebuild

  function Cleared(p: Projection, cal: Calendar, d: Date): Projection {
    Projection(map k | k in p.daily && k.1 != d :: p.daily[k],
               map k | k in p.hourly && !(cal.midnight(d) <= k.1 < cal.midnight(d + 1)) :: p.hourly[k])
  }

  function RebuiltDay(p: Projection, src: OperationalRows, cal: Calendar, d: Date): Projection
    requires cal.hour > 0
  {
    var c := Cleared(p, cal, d);
    Projection(InsertAll(c.daily, DailyRows(src, cal, GroupsOn(src, cal, d), d)),
               InsertAll(c.hourly, HourlyRows(src, cal, BucketsOn(cal, d), d)))
  }

  function RebuiltRange(p: Projection, src: OperationalRows, cal: Calendar, from: Date, until: Date): Projection
    requires cal.hour > 0
    decreases until - from
  {
    if until <= from then p else RebuiltDay(RebuiltRange(p, src, cal, from, until - 1), src, cal, until - 1)
  }

  // ---------------------------------------------------------------- what a rebuild replaces

  function Lookup<K, V>(m: map<K, V>, k: K): Option<V> {
    if k in m then Some(m[k]) else None
  }

  lemma {:induction false} HoursInside(lo: Time, hi: Time, hour: Time, i: nat)
    requires hour > 0 && i < |Hours(lo, hi, hour)|
    ensures lo <= Hours(lo, hi, hour)[i].0 < hi
    decreases i
  {
    if i > 0 { HoursInside(Min(lo + hour, hi), hi, hour, i - 1); }
  }

  predicate InDate(cal: Calendar, x: Time, d: Date) {
    cal.midnight(d) <= x < cal.midnight(d + 1)
  }

  lemma {:induction false} HourlyRowsInside(src: OperationalRows, cal: Calendar, buckets: seq<(Time, Time)>, d: Date, n: nat)
    requires n < |HourlyRows(src, cal, buckets, d)| && forall i :: 0 <= i < |buckets| ==> InDate(cal, buckets[i].0, d)
    ensures InDate(cal, HourlyRows(src, cal, buckets, d)[n].0.1, d)
  {
    var rest := buckets[..|buckets| - 1];
    if n < |HourlyRows(src, cal, rest, d)| { HourlyRowsInside(src, cal, rest, d, n); }
  }

  /** Inserting replaces the keys of the rows and keeps the others. */
  lemma {:induction false} InsertedLookup<K, V>(m: map<K, V>, rows: seq<(K, V)>, k: K)
    ensures Lookup(InsertAll(m, rows), k) == if k in InsertAll(map[], rows) then Lookup(InsertAll(map[], rows), k) else Lookup(m, k)
  {
    if rows != [] { InsertedLookup(m, rows[..|rows| - 1], k); }
  }

  lemma {:induction false} InsertedKey<K, V>(m: map<K, V>, rows: seq<(K, V)>, k: K)
    requires k in InsertAll(m, rows) && k !in m
    ensures exists n :: 0 <= n < |rows| && rows[n].0 == k
  {
    if rows[|rows| - 1].0 != k {
      InsertedKey(m, rows[..|rows| - 1], k);
      var n :| 0 <= n < |rows| - 1 && rows[..|rows| - 1][n].0 == k;
      assert rows[n].0 == k;
    }
  }

  /** The hourly rows of a date start inside it. */
  lemma HourlyInside(src: OperationalRows, cal: Calendar, d: Date, k: HourKey)
    requires cal.hour > 0 && k in HourlyOn(src, cal, d)
    ensures InDate(cal, k.1, d)
  {
    var buckets := BucketsOn(cal, d);
    var rows := HourlyRows(src, cal, buckets, d);
    InsertedKey(map[], rows, k);
    var n :| 0 <= n < |rows| && rows[n].0 == k;
    forall i | 0 <= i < |buckets| ensures InDate(cal, buckets[i].0, d) { HoursInside(cal.midnight(d), cal.midnight(d + 1), cal.hour, i); }
    HourlyRowsInside(src, cal, buckets, d, n);
  }

  lemma DailyInside(src: OperationalRows, cal: Calendar, d: Date, k: DayKey)
    requires k in DailyOn(src, cal, d)
    ensures k.1 == d
  {
    var rows := DailyRows(src, cal, GroupsOn(src, cal, d), d);
    InsertedKey(map[], rows, k);
  }

  /** When the rows of a key agree, the inserted map holds them, and nothing else. */
  lemma {:induction false} InsertedValue<K, V>(rows: seq<(K, V)>, n: nat)
    requires n < |rows| && forall i, j :: 0 <= i < |rows| && 0 <= j < |rows| && rows[i].0 == rows[j].0 ==> rows[i].1 == rows[j].1
    ensures Lookup(InsertAll(map[], rows), rows[n].0) == Some(rows[n].1)
  {
    if rows[|rows| - 1].0 != rows[n].0 { InsertedValue(rows[..|rows| - 1], n); }
  }

  /** A date has one daily row per group, over its window, aggregated over the group's tables. */
  lemma DailyOnRows(src: OperationalRows, cal: Calendar, d: Date, k: DayKey)
    ensures Lookup(DailyOn(src, cal, d), k) == if k.1 == d && k.0 in GroupsOn(src, cal, d) then Some(DailyRow(src, cal, k.0, d)) else None
  {
    var groups := GroupsOn(src, cal, d);
    var rows := DailyRows(src, cal, groups, d);
    if k in DailyOn(src, cal, d) { InsertedKey(map[], rows, k); }
    if k.1 == d && k.0 in groups {
      var n :| 0 <= n < |groups| && groups[n] == k.0;
      assert rows[n].0 == k;
      InsertedValue(rows, n);
    }
  }

  lemma {:induction false} HourlyRowsAre(src: OperationalRows, cal: Calendar, buckets: seq<(Time, Time)>, d: Date)
    ensures forall n :: 0 <= n < |HourlyRows(src, cal, buckets, d)| ==>
              var row := HourlyRows(src, cal, buckets, d)[n];
              && row.1 == HourlyRow(src, cal, row.0.0, row.0.1, d)
              && (exists i :: 0 <= i < |src.tables| && src.tables[i].id == row.0.0)
              && (exists i :: 0 <= i < |buckets| && buckets[i].0 == row.0.1)
  {
    if buckets != [] {
      var rest, last := buckets[..|buckets| - 1], |buckets| - 1;
      var before, rows := HourlyRows(src, cal, rest, d), HourlyRows(src, cal, buckets, d);
      HourlyRowsAre(src, cal, rest, d);
      forall n | 0 <= n < |rows|
        ensures rows[n].1 == HourlyRow(src, cal, rows[n].0.0, rows[n].0.1, d)
        ensures exists i :: 0 <= i < |src.tables| && src.tables[i].id == rows[n].0.0
        ensures exists i :: 0 <= i < |buckets| && buckets[i].0 == rows[n].0.1 {
        if n < |before| {
          assert rows[n] == before[n];
          var i :| 0 <= i < |rest| && rest[i].0 == rows[n].0.1;
          assert buckets[i].0 == rows[n].0.1;
        } else {
          assert src.tables[n - |before|].id == rows[n].0.0 && buckets[last].0 == rows[n].0.1;
        }
      }
    }
  }

  lemma {:induction false} HourlyRowsHave(src: OperationalRows, cal: Calendar, buckets: seq<(Time, Time)>, d: Date, i: nat, j: nat) returns (n: nat)
    requires i < |src.tables| && j < |buckets|
    ensures n < |HourlyRows(src, cal, buckets, d)| && HourlyRows(src, cal, buckets, d)[n].0 == (src.tables[i].id, buckets[j].0)
  {
    if j < |buckets| - 1 { n := HourlyRowsHave(src, cal, buckets[..|buckets| - 1], d, i, j); }
    else { n := |HourlyRows(src, cal, buckets[..|buckets| - 1], d)| + i; }
  }

  /** A date has one hourly row per table and bucket, the last bucket cut at the end of the day. */
  lemma HourlyOnRows(src: OperationalRows, cal: Calendar, d: Date, k: HourKey)
    requires cal.hour > 0
    ensures var buckets := BucketsOn(cal, d);
            Lookup(HourlyOn(src, cal, d), k) ==
            if (exists i :: 0 <= i < |src.tables| && src.tables[i].id == k.0) && (exists j :: 0 <= j < |buckets| && buckets[j].0 == k.1)
            then Some(HourlyRow(src, cal, k.0, k.1, d)) else None
  {
    var buckets := BucketsOn(cal, d);
    var rows := HourlyRows(src, cal, buckets, d);
    HourlyRowsAre(src, cal, buckets, d);
    if k in HourlyOn(src, cal, d) { InsertedKey(map[], rows, k); }
    if (exists i :: 0 <= i < |src.tables| && src.tables[i].id == k.0) && (exists j :: 0 <= j < |buckets| && buckets[j].0 == k.1) {
      var i :| 0 <= i < |src.tables| && src.tables[i].id == k.0;
      var j :| 0 <= j < |buckets| && buckets[j].0 == k.1;
      var n := HourlyRowsHave(src, cal, buckets, d, i, j);
      InsertedValue(rows, n);
    }
  }

  /** One date replaced. */
  ghost predicate ReplacesDay(p: Projection, after: Projection, src: OperationalRows, cal: Calendar, day: Date)
    requires cal.hour > 0
  {
    && (forall k :: Lookup(after.daily, k) == if k.1 == day then Lookup(DailyOn(src, cal, day), k) else Lookup(p.daily, k))
    && (forall k :: Lookup(after.hourly, k) == if InDate(cal, k.1, day) then Lookup(HourlyOn(src, cal, day), k) else Lookup(p.hourly, k))
  }

  lemma RebuiltDayReplaces(p: Projection, src: OperationalRows, cal: Calendar, day: Date)
    requires cal.hour > 0
    ensures ReplacesDay(p, RebuiltDay(p, src, cal, day), src, cal, day)
  {
    var after, c := RebuiltDay(p, src, cal, day), Cleared(p, cal, day);
    forall k ensures Lookup(after.daily, k) == if k.1 == day then Lookup(DailyOn(src, cal, day), k) else Lookup(p.daily, k) {
      InsertedLookup(c.daily, DailyRows(src, cal, GroupsOn(src, cal, day), day), k);
      if k in DailyOn(src, cal, day) { DailyInside(src, cal, day, k); }
    }
    forall k ensures Lookup(after.hourly, k) == if InDate(cal, k.1, day) then Lookup(HourlyOn(src, cal, day), k) else Lookup(p.hourly, k) {
      InsertedLookup(c.hourly, HourlyRows(src, cal, BucketsOn(cal, day), day), k);
      if k in HourlyOn(src, cal, day) { HourlyInside(src, cal, day, k); }
    }
  }

  /** What a rebuild makes of one hourly key: the row of its date, or what was there outside the range. */
  ghost predicate ReplacesHour(p: Projection, after: Projection, src: OperationalRows, cal: Calendar, from: Date, until: Date, k: HourKey)
    requires cal.hour > 0
  {
    && (forall d :: from <= d < until && InDate(cal, k.1, d) ==> Lookup(after.hourly, k) == Lookup(HourlyOn(src, cal, d), k))
    && (k.1 < cal.midnight(from) || cal.midnight(until) <= k.1 ==> Lookup(after.hourly, k) == Lookup(p.hourly, k))
  }

  ghost predicate ReplacesDate(p: Projection, after: Projection, src: OperationalRows, cal: Calendar, from: Date, until: Date, k: DayKey) {
    Lookup(after.daily, k) == if from <= k.1 < until then Lookup(DailyOn(src, cal, k.1), k) else Lookup(p.daily, k)
  }

  /** Exactly the rows of the dates in [from, until) are replaced, each by what the operational rows say. */
  ghost predicate Replaces(p: Projection, after: Projection, src: OperationalRows, cal: Calendar, from: Date, until: Date)
    requires cal.hour > 0
  {
    (forall k :: ReplacesDate(p, after, src, cal, from, until, k)) && (forall k :: ReplacesHour(p, after, src, cal, from, until, k))
  }

  lemma HourExtends(p: Projection, before: Projection, after: Projection, src: OperationalRows, cal: Calendar, from: Date, until: Date, k: HourKey)
    requires ValidCalendar(cal) && from < until && ReplacesHour(p, before, src, cal, from, until - 1, k)
    requires Lookup(after.hourly, k) == if InDate(cal, k.1, until - 1) then Lookup(HourlyOn(src, cal, until - 1), k) else Lookup(before.hourly, k)
    ensures ReplacesHour(p, after, src, cal, from, until, k)
  {
    forall d | from <= d < until && InDate(cal, k.1, d) ensures Lookup(after.hourly, k) == Lookup(HourlyOn(src, cal, d), k) {
    }
  }

  lemma DayExtends(p: Projection, before: Projection, after: Projection, src: OperationalRows, cal: Calendar, from: Date, until: Date)
    requires ValidCalendar(cal) && from < until
    requires Replaces(p, before, src, cal, from, until - 1) && ReplacesDay(before, after, src, cal, until - 1)
    ensures Replaces(p, after, src, cal, from, until)
  {
    forall k ensures ReplacesHour(p, after, src, cal, from, until, k) {
      assert ReplacesHour(p, before, src, cal, from, until - 1, k);
      HourExtends(p, before, after, src, cal, from, until, k);
    }
    forall k ensures ReplacesDate(p, after, src, cal, from, until, k) {
      assert ReplacesDate(p, before, src, cal, from, until - 1, k);
    }
  }

  lemma {:induction false} RebuildReplaces(p: Projection, src: OperationalRows, cal: Calendar, from: Date, until: Date)
    requires ValidCalendar(cal) && from <= until
    ensures Replaces(p, RebuiltRange(p, src, cal, from, until), src, cal, from, until)
    decreases until - from
  {
    if from < until {
      var before := RebuiltRange(p, src, cal, from, until - 1);
      RebuildReplaces(p, src, cal, from, until - 1);
      RebuiltDayReplaces(before, src, cal, until - 1);
      DayExtends(p, before, RebuiltRange(p, src, cal, from, until), src, cal, from, until);
    }
  }

  /** Every instant between two midnights is in one of the dates between. */
  lemma {:induction false} DateOfInstant(cal: Calendar, from: Date, until: Date, x: Time) returns (d: Date)
    requires ValidCalendar(cal) && from <= until && cal.midnight(from) <= x < cal.midnight(until)
    ensures from <= d < until && InDate(cal, x, d)
    decreases until - from
  {
    if x < cal.midnight(until - 1) { d := DateOfInstant(cal, from, until - 1, x); } else { d := until - 1; }
  }

  lemma LookupsDecide<K, V>(a: map<K, V>, b: map<K, V>)
    requires forall k :: Lookup(a, k) == Lookup(b, k)
    ensures a == b
  {
    forall k ensures k in a <==> k in b { assert Lookup(a, k) == Lookup(b, k); }
    forall k | k in a ensures a[k] == b[k] { assert Lookup(a, k) == Lookup(b, k); }
  }

  /** Two projections that agree outside the range end the same: the range does not depend on what it held. */
  lemma ReplacedAlike(p: Projection, q: Projection, a: Projection, b: Projection, src: OperationalRows, cal: Calendar, from: Date, until: Date)
    requires ValidCalendar(cal) && from <= until
    requires Replaces(p, a, src, cal, from, until) && Replaces(q, b, src, cal, from, until)
    requires forall k: DayKey :: !(from <= k.1 < until) ==> Lookup(p.daily, k) == Lookup(q.daily, k)
    requires forall k: HourKey :: k.1 < cal.midnight(from) || cal.midnight(until) <= k.1 ==> Lookup(p.hourly, k) == Lookup(q.hourly, k)
    ensures a == b
  {
    forall k ensures Lookup(a.daily, k) == Lookup(b.daily, k) {
      assert ReplacesDate(p, a, src, cal, from, until, k) && ReplacesDate(q, b, src, cal, from, until, k);
    }
    LookupsDecide(a.daily, b.daily);
    forall k ensures Lookup(a.hourly, k) == Lookup(b.hourly, k) {
      assert ReplacesHour(p, a, src, cal, from, until, k) && ReplacesHour(q, b, src, cal, from, until, k);
      if cal.midnight(from) <= k.1 < cal.midnight(until) { var d := DateOfInstant(cal, from, until, k.1); }
    }
    LookupsDecide(a.hourly, b.hourly);
  }

  /** Outside the range nothing changes. */
  lemma ReplacesOnlyTheRange(p: Projection, after: Projection, src: OperationalRows, cal: Calendar, from: Date, until: Date)
    requires cal.hour > 0 && Replaces(p, after, src, cal, from, until)
    ensures forall k: DayKey :: !(from <= k.1 < until) ==> Lookup(after.daily, k) == Lookup(p.daily, k)
    ensures forall k: HourKey :: k.1 < cal.midnight(from) || cal.midnight(until) <= k.1 ==> Lookup(after.hourly, k) == Lookup(p.hourly, k)
  {
    forall k: DayKey | !(from <= k.1 < until) ensures Lookup(after.daily, k) == Lookup(p.daily, k) {
      assert ReplacesDate(p, after, src, cal, from, until, k);
    }
    forall k: HourKey | k.1 < cal.midnight(from) || cal.midnight(until) <= k.1 ensures Lookup(after.hourly, k) == Lookup(p.hourly, k) {
      assert ReplacesHour(p, after, src, cal, from, until, k);
    }
  }

  lemma ReplacedTwice(p: Projection, once: Projection, twice: Projection, src: OperationalRows, cal: Calendar, from: Date, until: Date)
    requires ValidCalendar(cal) && from <= until
    requires Replaces(p, once, src, cal, from, until) && Replaces(once, twice, src, cal, from, until)
    ensures twice == once
  {
    ReplacesOnlyTheRange(p, once, src, cal, from, until);
    ReplacedAlike(once, p, twice, once, src, cal, from, until);
  }

  /** A second run on unchanged data gives the same rows. */
  lemma RebuildIsIdempotent(p: Projection, src: OperationalRows, cal: Calendar, from: Date, until: Date)
    requires ValidCalendar(cal) && from <= until
    ensures RebuiltRange(RebuiltRange(p, src, cal, from, until), src, cal, from, until) == RebuiltRange(p, src, cal, from, until)
  {
    var once := RebuiltRange(p, src, cal, from, until);
    RebuildReplaces(p, src, cal, from, until);
    RebuildReplaces(once, src, cal, from, until);
    ReplacedTwice(p, once, RebuiltRange(once, src, cal, from, until), src, cal, from, until);
  }

  /** Two adjacent ranges, in this order, equal one run over their union. */
  lemma {:induction false} AdjacentRangesCompose(p: Projection, src: OperationalRows, cal: Calendar, a: Date, b: Date, c: Date)
    requires cal.hour > 0 && a <= b <= c
    ensures RebuiltRange(RebuiltRange(p, src, cal, a, b), src, cal, b, c) == RebuiltRange(p, src, cal, a, c)
    decreases c - b
  {
    if b < c { AdjacentRangesCompose(p, src, cal, a, b, c - 1); }
  }

  /** Replacing the later dates and then the earlier ones replaces them all. */
  lemma ReplacesBoth(p: Projection, late: Projection, after: Projection, src: OperationalRows, cal: Calendar, a: Date, b: Date, c: Date)
    requires ValidCalendar(cal) && a <= b <= c
    requires Replaces(p, late, src, cal, b, c) && Replaces(late, after, src, cal, a, b)
    ensures Replaces(p, after, src, cal, a, c)
  {
    forall k ensures ReplacesDate(p, after, src, cal, a, c, k) {
      assert ReplacesDate(p, late, src, cal, b, c, k) && ReplacesDate(late, after, src, cal, a, b, k);
    }
    forall k ensures ReplacesHour(p, after, src, cal, a, c, k) {
      assert ReplacesHour(p, late, src, cal, b, c, k) && ReplacesHour(late, after, src, cal, a, b, k);
      forall d | a <= d < c && InDate(cal, k.1, d) ensures Lookup(after.hourly, k) == Lookup(HourlyOn(src, cal, d), k) {
      }
    }
  }

  /** And in the other order. */
  lemma AdjacentRangesCommute(p: Projection, src: OperationalRows, cal: Calendar, a: Date, b: Date, c: Date)
    requires ValidCalendar(cal) && a <= b <= c
    ensures RebuiltRange(RebuiltRange(p, src, cal, b, c), src, cal, a, b) == RebuiltRange(p, src, cal, a, c)
  {
    var late := RebuiltRange(p, src, cal, b, c);
    var after := RebuiltRange(late, src, cal, a, b);
    RebuildReplaces(p, src, cal, b, c);
    RebuildReplaces(late, src, cal, a, b);
    RebuildReplaces(p, src, cal, a, c);
    ReplacesBoth(p, late, after, src, cal, a, b, c);
    ReplacedAlike(p, p, after, RebuiltRange(p, src, cal, a, c), src, cal, a, c);
  }

  // ---------------------------------------------------------------- zones with a fixed offset

  /** Start and end of a service period as times of day, and its weekdays. */
  datatype Period = Period(daysOfWeek: seq<int>, start: S.Micros, end: S.Micros)

  function FixedMidnight(d: Date, offset: Time): Time { d * S.DAY - offset }

  /** The calendar of a zone with a fixed offset, times in microseconds. */
  function FixedCalendar(offset: Time, periods: map<Id, Period>): Calendar {
    Calendar((d: Date) => FixedMidnight(d, offset), (p: Id, d: Date) => FixedWindow(offset, periods, p, d), S.HOUR)
  }

  /** `projectDay` asks for the window at the local midnight. */
  function FixedWindow(offset: Time, periods: map<Id, Period>, p: Id, d: Date): Option<(Time, Time)> {
    if p in periods && periods[p].start >= 0 && periods[p].end >= 0
    then S.WindowForDate(FixedMidnight(d, offset), offset, periods[p].daysOfWeek, periods[p].start, periods[p].end) else None
  }

  /** The times of day were entered as clock strings. */
  ghost predicate EnteredAsClock(p: Period) {
    exists start, end :: S.ParseClock(start) == Some(p.start) && S.ParseClock(end) == Some(p.end)
  }

  lemma EnteredWindowOpen(offset: Time, periods: map<Id, Period>, p: Id, d: Date)
    requires p in periods && EnteredAsClock(periods[p])
    ensures var w := FixedWindow(offset, periods, p, d); w.Some? ==> w.value.0 < w.value.1
  {
    var start, end :| S.ParseClock(start) == Some(periods[p].start) && S.ParseClock(end) == Some(periods[p].end);
    S.ParsedWindowsOpen(FixedMidnight(d, offset), offset, periods[p].daysOfWeek, start, end);
  }

  /** With periods entered as clock strings, a fixed offset gives a calendar that every theorem here applies to. */
  lemma FixedCalendarIsValid(offset: Time, periods: map<Id, Period>)
    requires forall p :: p in periods ==> EnteredAsClock(periods[p])
    ensures ValidCalendar(FixedCalendar(offset, periods))
    ensures forall d :: S.LocalDate(FixedMidnight(d, offset), offset) == d
  {
    var cal := FixedCalendar(offset, periods);
    forall p, d | cal.periodWindow(p, d).Some? ensures cal.periodWindow(p, d).value.0 < cal.periodWindow(p, d).value.1 {
      EnteredWindowOpen(offset, periods, p, d);
    }
  }

  // ---------------------------------------------------------------- the projector's date

  /** `localDateWindow`: the local day of an instant, as two UTC instants. */
  function LocalDateWindow(x: Time, offset: Time): (Time, Time) {
    (FixedMidnight(S.LocalDate(x, offset), offset), FixedMidnight(S.LocalDate(x, offset) + 1, offset))
  }

  /** `rebuildRange` then reads the calendar dates of those instants in UTC, their own zone. */
  function HandledDates(x: Time, offset: Time): (Date, Date) {
    var w := LocalDateWindow(x, offset);
    (S.LocalDate(w.0, 0), S.LocalDate(w.1, 0))
  }

  lemma EventInsideItsWindow(x: Time, offset: Time)
    ensures LocalDateWindow(x, offset).0 <= x < LocalDateWindow(x, offset).1
  {
  }

  /** `Projector.Handle` rebuilds one date: the event's own up to UTC and west of it, the day before east of it. */
  lemma HandledDate(x: Time, offset: Time)
    requires -S.DAY < offset < S.DAY
    ensures var day := S.LocalDate(x, offset); HandledDates(x, offset) == if offset <= 0 then (day, day + 1) else (day - 1, day)
  {
    var day := S.LocalDate(x, offset);
    assert (day * S.DAY - offset) / S.DAY == if offset <= 0 then day else day - 1;
    assert ((day + 1) * S.DAY - offset) / S.DAY == if offset <= 0 then day + 1 else day;
  }

  /** The event's local date is among the rebuilt ones exactly when the zone is not ahead of UTC. */
  lemma HandleRebuildsEventDateIff(x: Time, offset: Time)
    requires -S.DAY < offset < S.DAY
    ensures HandledDates(x, offset).0 <= S.LocalDate(x, offset) < HandledDates(x, offset).1 <==> offset <= 0
  {
    HandledDate(x, offset);
  }

  /** Ahead of UTC every row of the event's own date, daily or hourly, stays as it was. */
  lemma HandleMissesEventDate(p: Projection, src: OperationalRows, cal: Calendar, x: Time, offset: Time)
    requires 0 < offset < S.DAY && ValidCalendar(cal) && forall d :: cal.midnight(d) == FixedMidnight(d, offset)
    ensures var dates := HandledDates(x, offset); var day := S.LocalDate(x, offset);
            var after := RebuiltRange(p, src, cal, dates.0, dates.1);
            && (forall g :: Lookup(after.daily, (g, day)) == Lookup(p.daily, (g, day)))
            && (forall k: HourKey :: InDate(cal, k.1, day) ==> Lookup(after.hourly, k) == Lookup(p.hourly, k))
  {
    HandledDate(x, offset);
    var dates, day := HandledDates(x, offset), S.LocalDate(x, offset);
    var after := RebuiltRange(p, src, cal, dates.0, dates.1);
    RebuildReplaces(p, src, cal, dates.0, dates.1);
    ReplacesOnlyTheRange(p, after, src, cal, dates.0, dates.1);
  }

  /** Noon UTC on day 0 with offset +2h is local day 0, and day -1 is rebuilt. */
  lemma HandleMissesExample()
    ensures S.LocalDate(12 * S.HOUR, 2 * S.HOUR) == 0 && HandledDates(12 * S.HOUR, 2 * S.HOUR) == (-1, 0)
  {
  }
}
