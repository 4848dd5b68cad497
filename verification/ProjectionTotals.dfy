/** The rows of a rebuilt date agree with each other: hours, tables, zones and floors sum to the location. */
module ProjectionTotals {
  import opened Common
  import opened Operations
  import opened Analytics
  import opened Rebuild
  import RebuildStore

  function RowFigure(row: Option<Row>, kind: Kind): int {
    if row.Some? then FigureOf(row.value.metric, kind) else 0
  }

  /** The daily rows of some groups, summed. */
  function DailySum(daily: map<DayKey, Row>, kind: Kind, groups: seq<Group>, d: Date): int {
    if groups == [] then 0
    else DailySum(daily, kind, groups[..|groups| - 1], d) + RowFigure(Lookup(daily, (groups[|groups| - 1], d)), kind)
  }

  /** The hourly rows of a bucket, summed over tables, and those of several buckets. */
  function HourSum(hourly: map<HourKey, Row>, kind: Kind, tables: seq<Id>, x: Time): int {
    if tables == [] then 0
    else HourSum(hourly, kind, tables[..|tables| - 1], x) + RowFigure(Lookup(hourly, (tables[|tables| - 1], x)), kind)
  }

  function HourlySum(hourly: map<HourKey, Row>, kind: Kind, tables: seq<Id>, buckets: seq<(Time, Time)>): int {
    if buckets == [] then 0
    else HourlySum(hourly, kind, tables, buckets[..|buckets| - 1]) + HourSum(hourly, kind, tables, buckets[|buckets| - 1].0)
  }

  function Ids(src: OperationalRows): seq<Id> {
    seq(|src.tables|, i requires 0 <= i < |src.tables| => src.tables[i].id)
  }

  // ---------------------------------------------------------------- groups that split the location

  function Union(src: OperationalRows, groups: seq<Group>): set<Id> {
    if groups == [] then {} else Union(src, groups[..|groups| - 1]) + ScopedTables(src, groups[|groups| - 1])
  }

  ghost predicate Apart(src: OperationalRows, groups: seq<Group>) {
    forall i, j :: 0 <= i < j < |groups| ==> ScopedTables(src, groups[i]) !! ScopedTables(src, groups[j])
  }

  function GroupsFigure(src: OperationalRows, kind: Kind, groups: seq<Group>, lo: Time, hi: Time): int {
    if groups == [] then 0
    else GroupsFigure(src, kind, groups[..|groups| - 1], lo, hi) + Figure(src.facts, kind, ScopedTables(src, groups[|groups| - 1]), lo, hi)
  }

  lemma {:induction false} InUnion(src: OperationalRows, groups: seq<Group>, t: Id)
    ensures t in Union(src, groups) <==> exists i :: 0 <= i < |groups| && t in ScopedTables(src, groups[i])
  {
    if groups != [] {
      var rest := groups[..|groups| - 1];
      InUnion(src, rest, t);
      if exists i :: 0 <= i < |groups| && t in ScopedTables(src, groups[i]) {
        var i :| 0 <= i < |groups| && t in ScopedTables(src, groups[i]);
        assert i < |rest| ==> rest[i] == groups[i];
      }
    }
  }

  lemma {:induction false} GroupsAddUp(src: OperationalRows, kind: Kind, groups: seq<Group>, lo: Time, hi: Time)
    requires Apart(src, groups)
    ensures GroupsFigure(src, kind, groups, lo, hi) == Figure(src.facts, kind, Union(src, groups), lo, hi)
  {
    if groups == [] {
      NoTablesNoFigure(src.facts, kind, lo, hi);
    } else {
      var rest, g := groups[..|groups| - 1], groups[|groups| - 1];
      GroupsAddUp(src, kind, rest, lo, hi);
      forall t | t in Union(src, rest) ensures t !in ScopedTables(src, g) {
        InUnion(src, rest, t);
        var i :| 0 <= i < |rest| && t in ScopedTables(src, rest[i]);
        assert ScopedTables(src, groups[i]) !! ScopedTables(src, groups[|rest|]);
      }
      FigureSplits(src.facts, kind, Union(src, rest), ScopedTables(src, g), lo, hi);
    }
  }

  lemma {:induction false} FloorsCover(tables: seq<TableRow>, r: TableRow)
    requires r in tables
    ensures FloorGroup(r.floor) in Floors(tables) && ZoneGroup(r.zone) in Zones(tables)
  {
    if r != tables[|tables| - 1] { FloorsCover(tables[..|tables| - 1], r); }
  }

  /** Different floors, zones or tables have no table in common, as every table is one row. */
  lemma GroupsApart(src: OperationalRows, groups: seq<Group>)
    requires RebuildStore.DistinctRows(src) && RebuildStore.AllDifferent(groups)
    requires (forall g :: g in groups ==> g.FloorGroup?) || (forall g :: g in groups ==> g.ZoneGroup?) || (forall g :: g in groups ==> g.TableGroup?)
    ensures Apart(src, groups)
  {
    forall i, j | 0 <= i < j < |groups| ensures ScopedTables(src, groups[i]) !! ScopedTables(src, groups[j]) {
      assert groups[i] in groups && groups[j] in groups && groups[i] != groups[j];
      assert forall r, q :: r in src.tables && q in src.tables && r.id == q.id ==> r == q;
    }
  }

  ghost predicate Covering(src: OperationalRows, groups: seq<Group>) {
    forall r :: r in src.tables ==> exists i :: 0 <= i < |groups| && r.id in ScopedTables(src, groups[i])
  }

  lemma CoveringUnion(src: OperationalRows, groups: seq<Group>)
    requires Covering(src, groups)
    ensures Union(src, groups) == TableIds(src)
  {
    forall t ensures t in Union(src, groups) <==> t in TableIds(src) {
      InUnion(src, groups, t);
      if t in TableIds(src) {
        var r :| r in src.tables && r.id == t;
        assert exists i :: 0 <= i < |groups| && r.id in ScopedTables(src, groups[i]);
      }
    }
  }

  lemma SplitsCover(src: OperationalRows)
    ensures Covering(src, Floors(src.tables)) && Covering(src, Zones(src.tables)) && Covering(src, DayTables(src.tables))
  {
    forall r | r in src.tables
      ensures exists i :: 0 <= i < |Floors(src.tables)| && r.id in ScopedTables(src, Floors(src.tables)[i])
      ensures exists i :: 0 <= i < |Zones(src.tables)| && r.id in ScopedTables(src, Zones(src.tables)[i])
      ensures exists i :: 0 <= i < |DayTables(src.tables)| && r.id in ScopedTables(src, DayTables(src.tables)[i]) {
      FloorsCover(src.tables, r);
      var i :| 0 <= i < |Floors(src.tables)| && Floors(src.tables)[i] == FloorGroup(r.floor);
      assert r.id in ScopedTables(src, Floors(src.tables)[i]);
      var j :| 0 <= j < |Zones(src.tables)| && Zones(src.tables)[j] == ZoneGroup(r.zone);
      assert r.id in ScopedTables(src, Zones(src.tables)[j]);
      var k :| 0 <= k < |src.tables| && src.tables[k] == r;
      assert r.id in ScopedTables(src, DayTables(src.tables)[k]);
    }
  }

  // ---------------------------------------------------------------- the rows of a date

  lemma DailyFigure(src: OperationalRows, cal: Calendar, kind: Kind, g: Group, d: Date)
    requires !g.PeriodGroup?
    ensures FigureOf(DailyRow(src, cal, g, d).metric, kind) == Figure(src.facts, kind, ScopedTables(src, g), cal.midnight(d), cal.midnight(d + 1))
  {
  }

  lemma {:induction false} DailySumIsFigures(daily: map<DayKey, Row>, src: OperationalRows, cal: Calendar, kind: Kind, groups: seq<Group>, d: Date)
    requires forall i :: 0 <= i < |groups| ==> !groups[i].PeriodGroup? && Lookup(daily, (groups[i], d)) == Some(DailyRow(src, cal, groups[i], d))
    ensures DailySum(daily, kind, groups, d) == GroupsFigure(src, kind, groups, cal.midnight(d), cal.midnight(d + 1))
  {
    if groups != [] {
      DailySumIsFigures(daily, src, cal, kind, groups[..|groups| - 1], d);
      DailyFigure(src, cal, kind, groups[|groups| - 1], d);
    }
  }

  /** A date holds the rows of its groups after any rebuild that covers it. */
  ghost predicate HoldsDate(p: Projection, src: OperationalRows, cal: Calendar, d: Date)
    requires cal.hour > 0
  {
    && (forall g :: g in GroupsOn(src, cal, d) ==> Lookup(p.daily, (g, d)) == Some(DailyRow(src, cal, g, d)))
    && (forall k: HourKey :: InDate(cal, k.1, d) ==> Lookup(p.hourly, k) == Lookup(HourlyOn(src, cal, d), k))
  }

  lemma RebuildHoldsDate(p: Projection, src: OperationalRows, cal: Calendar, from: Date, until: Date, d: Date)
    requires ValidCalendar(cal) && from <= d < until
    ensures HoldsDate(RebuiltRange(p, src, cal, from, until), src, cal, d)
  {
    var after := RebuiltRange(p, src, cal, from, until);
    RebuildReplaces(p, src, cal, from, until);
    forall g | g in GroupsOn(src, cal, d) ensures Lookup(after.daily, (g, d)) == Some(DailyRow(src, cal, g, d)) {
      assert ReplacesDate(p, after, src, cal, from, until, (g, d));
      DailyOnRows(src, cal, d, (g, d));
    }
    forall k: HourKey | InDate(cal, k.1, d) ensures Lookup(after.hourly, k) == Lookup(HourlyOn(src, cal, d), k) {
      assert ReplacesHour(p, after, src, cal, from, until, k);
    }
  }

  lemma SplitSum(p: Projection, src: OperationalRows, cal: Calendar, kind: Kind, groups: seq<Group>, d: Date)
    requires cal.hour > 0 && HoldsDate(p, src, cal, d) && Apart(src, groups) && Covering(src, groups)
    requires forall g :: g in groups ==> !g.PeriodGroup? && g in GroupsOn(src, cal, d)
    ensures DailySum(p.daily, kind, groups, d) == Figure(src.facts, kind, TableIds(src), cal.midnight(d), cal.midnight(d + 1))
  {
    DailySumIsFigures(p.daily, src, cal, kind, groups, d);
    GroupsAddUp(src, kind, groups, cal.midnight(d), cal.midnight(d + 1));
    CoveringUnion(src, groups);
  }

  // ---------------------------------------------------------------- the hours of a date

  /** Each bucket ends an hour after its start, or with the day. */
  lemma {:induction false} BucketEnd(lo: Time, hi: Time, hour: Time, i: nat)
    requires hour > 0 && i < |Hours(lo, hi, hour)|
    ensures Hours(lo, hi, hour)[i].1 == Min(Hours(lo, hi, hour)[i].0 + hour, hi)
    decreases i
  {
    if i > 0 { BucketEnd(Min(lo + hour, hi), hi, hour, i - 1); }
  }

  ghost predicate HoldsBuckets(hourly: map<HourKey, Row>, src: OperationalRows, tables: seq<Id>, buckets: seq<(Time, Time)>) {
    forall i, j :: 0 <= i < |tables| && 0 <= j < |buckets| ==>
      Lookup(hourly, (tables[i], buckets[j].0)) == Some(Row(buckets[j].0, buckets[j].1, WindowMetric(src.facts, {tables[i]}, buckets[j].0, buckets[j].1, buckets[j].1)))
  }

  lemma {:induction false} HourSumIsTotal(hourly: map<HourKey, Row>, src: OperationalRows, kind: Kind, tables: seq<Id>, b: (Time, Time))
    requires HoldsBuckets(hourly, src, tables, [b])
    ensures HourSum(hourly, kind, tables, b.0) == TableTotal(src.facts, kind, tables, b.0, b.1)
  {
    if tables != [] {
      var rest, n := tables[..|tables| - 1], |tables| - 1;
      assert forall i :: 0 <= i < |rest| ==> rest[i] == tables[i];
      HourSumIsTotal(hourly, src, kind, rest, b);
      assert [b][0] == b && Lookup(hourly, (tables[n], [b][0].0)).Some?;
    }
  }

  lemma {:induction false} HourlySumIsTotal(hourly: map<HourKey, Row>, src: OperationalRows, kind: Kind, tables: seq<Id>, buckets: seq<(Time, Time)>)
    requires HoldsBuckets(hourly, src, tables, buckets)
    ensures HourlySum(hourly, kind, tables, buckets) == HourlyTotal(src.facts, kind, tables, buckets)
  {
    if buckets != [] {
      var rest, b := buckets[..|buckets| - 1], buckets[|buckets| - 1];
      assert forall j :: 0 <= j < |rest| ==> rest[j] == buckets[j];
      HourlySumIsTotal(hourly, src, kind, tables, rest);
      assert buckets[|rest|] == b;
      HourSumIsTotal(hourly, src, kind, tables, b);
    }
  }

  lemma OneTable(src: OperationalRows, i: nat)
    requires i < |src.tables|
    ensures ScopedTables(src, TableGroup(src.tables[i].id)) == {src.tables[i].id}
  {
  }

  lemma DateHoldsBuckets(p: Projection, src: OperationalRows, cal: Calendar, d: Date)
    requires cal.hour > 0 && HoldsDate(p, src, cal, d)
    ensures HoldsBuckets(p.hourly, src, Ids(src), BucketsOn(cal, d))
  {
    var ids, buckets := Ids(src), BucketsOn(cal, d);
    forall i, j | 0 <= i < |ids| && 0 <= j < |buckets|
      ensures Lookup(p.hourly, (ids[i], buckets[j].0)) == Some(Row(buckets[j].0, buckets[j].1, WindowMetric(src.facts, {ids[i]}, buckets[j].0, buckets[j].1, buckets[j].1))) {
      var k: HourKey := (ids[i], buckets[j].0);
      HoursInside(cal.midnight(d), cal.midnight(d + 1), cal.hour, j);
      BucketEnd(cal.midnight(d), cal.midnight(d + 1), cal.hour, j);
      HourlyOnRows(src, cal, d, k);
      OneTable(src, i);
      assert src.tables[i].id == k.0;
    }
  }

  lemma HoursSum(p: Projection, src: OperationalRows, cal: Calendar, kind: Kind, d: Date)
    requires ValidCalendar(cal) && RebuildStore.DistinctRows(src) && HoldsDate(p, src, cal, d)
    ensures HourlySum(p.hourly, kind, Ids(src), BucketsOn(cal, d)) == Figure(src.facts, kind, TableIds(src), cal.midnight(d), cal.midnight(d + 1))
  {
    DateHoldsBuckets(p, src, cal, d);
    HourlySumIsTotal(p.hourly, src, kind, Ids(src), BucketsOn(cal, d));
    HoursAddUpToTheDay(src.facts, kind, Ids(src), cal.midnight(d), cal.midnight(d + 1), cal.hour);
    assert SetOf(Ids(src)) == TableIds(src) by {
      forall t ensures t in SetOf(Ids(src)) <==> t in TableIds(src) {
        if t in TableIds(src) {
          var i :| 0 <= i < |src.tables| && src.tables[i].id == t;
          assert Ids(src)[i] == t;
        }
      }
    }
  }

  lemma FloorsSum(p: Projection, src: OperationalRows, cal: Calendar, kind: Kind, d: Date)
    requires cal.hour > 0 && RebuildStore.DistinctRows(src) && HoldsDate(p, src, cal, d)
    ensures DailySum(p.daily, kind, Floors(src.tables), d) == Figure(src.facts, kind, TableIds(src), cal.midnight(d), cal.midnight(d + 1))
  {
    RebuildStore.FloorsDiffer(src.tables);
    GroupsApart(src, Floors(src.tables));
    SplitsCover(src);
    SplitSum(p, src, cal, kind, Floors(src.tables), d);
  }

  lemma ZonesSum(p: Projection, src: OperationalRows, cal: Calendar, kind: Kind, d: Date)
    requires cal.hour > 0 && RebuildStore.DistinctRows(src) && HoldsDate(p, src, cal, d)
    ensures DailySum(p.daily, kind, Zones(src.tables), d) == Figure(src.facts, kind, TableIds(src), cal.midnight(d), cal.midnight(d + 1))
  {
    RebuildStore.ZonesDiffer(src.tables);
    GroupsApart(src, Zones(src.tables));
    SplitsCover(src);
    SplitSum(p, src, cal, kind, Zones(src.tables), d);
  }

  lemma TablesSum(p: Projection, src: OperationalRows, cal: Calendar, kind: Kind, d: Date)
    requires cal.hour > 0 && RebuildStore.DistinctRows(src) && HoldsDate(p, src, cal, d)
    ensures DailySum(p.daily, kind, DayTables(src.tables), d) == Figure(src.facts, kind, TableIds(src), cal.midnight(d), cal.midnight(d + 1))
  {
    GroupsApart(src, DayTables(src.tables));
    SplitsCover(src);
    SplitSum(p, src, cal, kind, DayTables(src.tables), d);
  }

  lemma LocationRow(p: Projection, src: OperationalRows, cal: Calendar, kind: Kind, d: Date)
    requires cal.hour > 0 && HoldsDate(p, src, cal, d)
    ensures var whole := Lookup(p.daily, (LocationGroup, d));
            whole.Some? && RowFigure(whole, kind) == Figure(src.facts, kind, TableIds(src), cal.midnight(d), cal.midnight(d + 1))
  {
    assert LocationGroup in GroupsOn(src, cal, d);
    DailyFigure(src, cal, kind, LocationGroup, d);
  }

  /**
   After any rebuild that covers a date, the stored rows of that date agree: its hourly rows over tables
   and hours, its table rows, its zone rows and its floor rows each sum to its location row, for
   occupancy, completed sessions and assist requests.
   */
  lemma RebuiltRowsAgree(p: Projection, src: OperationalRows, cal: Calendar, from: Date, until: Date, d: Date, kind: Kind)
    requires ValidCalendar(cal) && RebuildStore.DistinctRows(src) && from <= d < until
    ensures var after := RebuiltRange(p, src, cal, from, until);
            var whole := Lookup(after.daily, (LocationGroup, d));
            && whole.Some?
            && HourlySum(after.hourly, kind, Ids(src), BucketsOn(cal, d)) == RowFigure(whole, kind)
            && DailySum(after.daily, kind, DayTables(src.tables), d) == RowFigure(whole, kind)
            && DailySum(after.daily, kind, Zones(src.tables), d) == RowFigure(whole, kind)
            && DailySum(after.daily, kind, Floors(src.tables), d) == RowFigure(whole, kind)
  {
    var after := RebuiltRange(p, src, cal, from, until);
    RebuildHoldsDate(p, src, cal, from, until, d);
    LocationRow(after, src, cal, kind, d);
    HoursSum(after, src, cal, kind, d);
    TablesSum(after, src, cal, kind, d);
    ZonesSum(after, src, cal, kind, d);
    FloorsSum(after, src, cal, kind, d);
  }
}
