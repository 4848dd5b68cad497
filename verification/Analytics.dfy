/**
 Interval arithmetic of `internal/domain/analytics`: clipped occupancy, window metrics, hour buckets.
 Times and durations are whole units of the clock, rates are reals.
 */
module Analytics {
  import opened Common
  import opened Operations
  import T = TableHistory

  /** The rows the aggregate reads, in any order. */
  datatype Facts = Facts(sessions: seq<Session>, assists: seq<Assist>)

  datatype Metric = Metric(activeTables: nat, occupancy: int, basis: int, utilisation: real,
                           completed: nat, turnover: real, assists: nat, anomalies: nat)

  function EndOf(s: Session, asOf: Time): Time {
    if s.endedAt.Some? then s.endedAt.value else asOf
  }

  // ---------------------------------------------------------------- one session in a window

  /** `OverlapSeconds`: the overlap, and whether the session is possible. */
  function OverlapSeconds(start: Time, end: Option<Time>, lo: Time, hi: Time, asOf: Time): (int, bool) {
    var sessionEnd := if end.Some? then end.value else asOf;
    if sessionEnd < start then (0, false)
    else
      var overlapStart, overlapEnd := Max(start, lo), Min(sessionEnd, hi);
      if overlapEnd <= overlapStart then (0, true) else (overlapEnd - overlapStart, true)
  }

  /** The row's term of the `session_overlap` sum; 0 when its WHERE clause drops the row. */
  function Clip(s: Session, lo: Time, hi: Time, asOf: Time): nat {
    if s.startedAt < hi && EndOf(s, asOf) > lo && EndOf(s, asOf) >= s.startedAt
    then Max(0, Min(EndOf(s, asOf), hi) - Max(s.startedAt, lo)) else 0
  }

  /** The Go formula and the SQL aggregate agree on every session and window. */
  lemma OverlapIsClip(s: Session, lo: Time, hi: Time, asOf: Time)
    ensures OverlapSeconds(s.startedAt, s.endedAt, lo, hi, asOf) == (Clip(s, lo, hi, asOf) as int, s.startedAt <= EndOf(s, asOf))
  {
  }

  /** The session is running at instant `x`. */
  predicate Covers(s: Session, x: Time, asOf: Time) {
    s.startedAt <= x < EndOf(s, asOf)
  }

  lemma ClipGrows(s: Session, lo: Time, hi: Time, asOf: Time)
    requires lo < hi
    ensures Clip(s, lo, hi, asOf) == Clip(s, lo, hi - 1, asOf) + if Covers(s, hi - 1, asOf) then 1 else 0
  {
  }

  // ---------------------------------------------------------------- sums

  function OccupancySum(sessions: seq<Session>, tables: set<Id>, lo: Time, hi: Time, asOf: Time): nat {
    if sessions == [] then 0
    else
      var s := sessions[|sessions| - 1];
      OccupancySum(sessions[..|sessions| - 1], tables, lo, hi, asOf) + if s.table in tables then Clip(s, lo, hi, asOf) else 0
  }

  predicate CompletedIn(s: Session, lo: Time, hi: Time) {
    s.endedAt.Some? && lo <= s.endedAt.value < hi && s.startedAt <= s.endedAt.value
  }

  function CompletedCount(sessions: seq<Session>, tables: set<Id>, lo: Time, hi: Time): nat {
    if sessions == [] then 0
    else
      var s := sessions[|sessions| - 1];
      CompletedCount(sessions[..|sessions| - 1], tables, lo, hi) + if s.table in tables && CompletedIn(s, lo, hi) then 1 else 0
  }

  function AssistCount(assists: seq<Assist>, tables: set<Id>, lo: Time, hi: Time): nat {
    if assists == [] then 0
    else
      var a := assists[|assists| - 1];
      AssistCount(assists[..|assists| - 1], tables, lo, hi) + if a.table in tables && lo <= a.requestedAt < hi then 1 else 0
  }

  function AnomalyCount(sessions: seq<Session>, tables: set<Id>): nat {
    if sessions == [] then 0
    else
      var s := sessions[|sessions| - 1];
      AnomalyCount(sessions[..|sessions| - 1], tables) + if s.table in tables && s.endedAt.Some? && s.endedAt.value < s.startedAt then 1 else 0
  }

  function FinalizeMetric(m: Metric): Metric {
    var m1 := if m.basis > 0 then m.(utilisation := m.occupancy as real / m.basis as real) else m;
    if m1.activeTables > 0 then m1.(turnover := m1.completed as real / m1.activeTables as real) else m1
  }

  /** `calculateWindowMetric` over the tables that the scope filter leaves. */
  function WindowMetric(f: Facts, tables: set<Id>, lo: Time, hi: Time, asOf: Time): Metric {
    FinalizeMetric(Metric(|tables|, OccupancySum(f.sessions, tables, lo, hi, asOf), |tables| * (hi - lo), 0.0,
                          CompletedCount(f.sessions, tables, lo, hi), 0.0,
                          AssistCount(f.assists, tables, lo, hi), AnomalyCount(f.sessions, tables)))
  }

  // ---------------------------------------------------------------- utilisation

  /** Sessions of one of the tables never overlap: the guarantee of TableHistory on a list of rows. */
  ghost predicate PairwiseDisjoint(sessions: seq<Session>, tables: set<Id>) {
    forall i, j :: 0 <= i < j < |sessions| && sessions[i].table == sessions[j].table && sessions[i].table in tables ==>
                     T.Before(sessions[i], sessions[j]) || T.Before(sessions[j], sessions[i])
  }

  /** How many of the tables are in use at an instant, counted by session. */
  function InUse(sessions: seq<Session>, tables: set<Id>, x: Time, asOf: Time): nat {
    if sessions == [] then 0
    else
      var s := sessions[|sessions| - 1];
      InUse(sessions[..|sessions| - 1], tables, x, asOf) + if s.table in tables && Covers(s, x, asOf) then 1 else 0
  }

  lemma {:induction false} OccupancyGrows(sessions: seq<Session>, tables: set<Id>, lo: Time, hi: Time, asOf: Time)
    requires lo < hi
    ensures OccupancySum(sessions, tables, lo, hi, asOf) == OccupancySum(sessions, tables, lo, hi - 1, asOf) + InUse(sessions, tables, hi - 1, asOf)
  {
    if sessions != [] {
      OccupancyGrows(sessions[..|sessions| - 1], tables, lo, hi, asOf);
      ClipGrows(sessions[|sessions| - 1], lo, hi, asOf);
    }
  }

  /** Leaving out a table nobody of the list is using at `x` changes nothing. */
  lemma {:induction false} InUseWithout(sessions: seq<Session>, tables: set<Id>, t: Id, x: Time, asOf: Time)
    requires forall i :: 0 <= i < |sessions| && sessions[i].table == t ==> !Covers(sessions[i], x, asOf)
    ensures InUse(sessions, tables - {t}, x, asOf) == InUse(sessions, tables, x, asOf)
  {
    if sessions != [] { InUseWithout(sessions[..|sessions| - 1], tables, t, x, asOf); }
  }

  /** At any instant at most one session per table is running. */
  lemma {:induction false} InUseAtMostTables(sessions: seq<Session>, tables: set<Id>, x: Time, asOf: Time)
    requires PairwiseDisjoint(sessions, tables)
    ensures InUse(sessions, tables, x, asOf) <= |tables|
  {
    if sessions != [] {
      var rest, s := sessions[..|sessions| - 1], sessions[|sessions| - 1];
      if s.table in tables && Covers(s, x, asOf) {
        forall i | 0 <= i < |rest| && rest[i].table == s.table ensures !Covers(rest[i], x, asOf) {
          assert T.Before(sessions[i], s) || T.Before(s, sessions[i]);
        }
        InUseWithout(rest, tables, s.table, x, asOf);
        InUseAtMostTables(rest, tables - {s.table}, x, asOf);
      } else {
        InUseAtMostTables(rest, tables, x, asOf);
      }
    }
  }

  lemma {:induction false} NothingInEmptyWindow(sessions: seq<Session>, tables: set<Id>, lo: Time, hi: Time, asOf: Time)
    requires hi <= lo
    ensures OccupancySum(sessions, tables, lo, hi, asOf) == 0
  {
    if sessions != [] { NothingInEmptyWindow(sessions[..|sessions| - 1], tables, lo, hi, asOf); }
  }

  /** Summed clipped occupancy is at most tables times window length. */
  lemma {:induction false} OccupancyAtMostBasis(sessions: seq<Session>, tables: set<Id>, lo: Time, hi: Time, asOf: Time)
    requires PairwiseDisjoint(sessions, tables) && lo <= hi
    ensures OccupancySum(sessions, tables, lo, hi, asOf) <= |tables| * (hi - lo)
    decreases hi - lo
  {
    if lo == hi {
      NothingInEmptyWindow(sessions, tables, lo, hi, asOf);
    } else {
      OccupancyAtMostBasis(sessions, tables, lo, hi - 1, asOf);
      OccupancyGrows(sessions, tables, lo, hi, asOf);
      InUseAtMostTables(sessions, tables, hi - 1, asOf);
      assert |tables| * (hi - lo) == |tables| * (hi - 1 - lo) + |tables|;
    }
  }

  lemma RatioAtMostOne(a: nat, b: nat)
    requires a <= b && b > 0
    ensures 0.0 <= a as real / b as real <= 1.0
  {
    assert a as real <= 1.0 * b as real;
  }

  /** The utilisation rate of disjoint sessions is in [0, 1] over any window, up to any instant. */
  lemma UtilisationIsARate(f: Facts, tables: set<Id>, lo: Time, hi: Time, asOf: Time)
    requires PairwiseDisjoint(f.sessions, tables) && lo <= hi
    ensures var m := WindowMetric(f, tables, lo, hi, asOf); 0 <= m.occupancy <= m.basis && 0.0 <= m.utilisation <= 1.0
  {
    OccupancyAtMostBasis(f.sessions, tables, lo, hi, asOf);
    if |tables| * (hi - lo) > 0 { RatioAtMostOne(OccupancySum(f.sessions, tables, lo, hi, asOf), |tables| * (hi - lo)); }
  }

  /** `rows` are the sessions of the store, each once, in some order. */
  ghost predicate Lists(rows: seq<Session>, ids: seq<Id>, db: Db) {
    && |ids| == |rows|
    && (forall i, j :: 0 <= i < j < |ids| ==> ids[i] != ids[j])
    && (forall i :: 0 <= i < |ids| ==> ids[i] in db.sessions && rows[i] == db.sessions[ids[i]])
  }

  /** After any run in which the tables' stamps follow each other, every metric's utilisation rate is in [0, 1]. */
  lemma EveryRunUtilisation(steps: seq<Step>, f: Facts, ids: seq<Id>, tables: set<Id>, lo: Time, hi: Time, asOf: Time)
    requires (forall t :: t in tables ==> T.StampsFollow(steps, t)) && Lists(f.sessions, ids, Run(EMPTY, steps)) && lo <= hi
    ensures var m := WindowMetric(f, tables, lo, hi, asOf); 0 <= m.occupancy <= m.basis && 0.0 <= m.utilisation <= 1.0
  {
    forall t | t in tables ensures T.Disjoint(Run(EMPTY, steps), t) { T.EveryRunDisjointIff(steps, t); }
    UtilisationIsARate(f, tables, lo, hi, asOf);
  }

  lemma {:induction false} PossibleSessionsHaveNoAnomalies(sessions: seq<Session>, tables: set<Id>)
    requires forall i :: 0 <= i < |sessions| && sessions[i].endedAt.Some? ==> sessions[i].startedAt <= sessions[i].endedAt.value
    ensures AnomalyCount(sessions, tables) == 0
  {
    if sessions != [] { PossibleSessionsHaveNoAnomalies(sessions[..|sessions| - 1], tables); }
  }

  /** Commands never produce what the metrics count as an anomaly, whatever the clocks say. */
  lemma EveryRunWithoutAnomalies(steps: seq<Step>, f: Facts, ids: seq<Id>, tables: set<Id>, lo: Time, hi: Time, asOf: Time)
    requires Lists(f.sessions, ids, Run(EMPTY, steps))
    ensures WindowMetric(f, tables, lo, hi, asOf).anomalies == 0
  {
    T.EveryRunForward(steps);
    PossibleSessionsHaveNoAnomalies(f.sessions, tables);
  }

  // ---------------------------------------------------------------- hour buckets

  /** Consecutive windows from `lo` to `hi` without gap or overlap, none empty and none longer than an hour. */
  ghost predicate Tiles(buckets: seq<(Time, Time)>, lo: Time, hi: Time, hour: Time) {
    if buckets == [] then lo == hi
    else
      var last := buckets[|buckets| - 1];
      last.1 == hi && 0 < last.1 - last.0 <= hour && Tiles(buckets[..|buckets| - 1], lo, last.0, hour)
  }

  /** The buckets of the hour loop of `projectDay`. */
  function Hours(lo: Time, hi: Time, hour: Time): seq<(Time, Time)>
    requires hour > 0
    decreases hi - lo
  {
    if lo >= hi then [] else [(lo, Min(lo + hour, hi))] + Hours(Min(lo + hour, hi), hi, hour)
  }

  lemma {:induction false} BucketInside(buckets: seq<(Time, Time)>, lo: Time, hi: Time, hour: Time, i: nat)
    requires Tiles(buckets, lo, hi, hour) && i < |buckets|
    ensures lo <= buckets[i].0 < buckets[i].1 <= hi
    ensures i + 1 < |buckets| ==> buckets[i].1 == buckets[i + 1].0
  {
    TilesOrdered(buckets[..|buckets| - 1], lo, buckets[|buckets| - 1].0, hour);
    if i < |buckets| - 1 { BucketInside(buckets[..|buckets| - 1], lo, buckets[|buckets| - 1].0, hour, i); }
  }

  lemma {:induction false} TilesOrdered(buckets: seq<(Time, Time)>, lo: Time, hi: Time, hour: Time)
    requires Tiles(buckets, lo, hi, hour)
    ensures lo <= hi
  {
    if buckets != [] { TilesOrdered(buckets[..|buckets| - 1], lo, buckets[|buckets| - 1].0, hour); }
  }

  /** Every instant of the day is in exactly one bucket. */
  lemma {:induction false} EveryInstantInOneBucket(buckets: seq<(Time, Time)>, lo: Time, hi: Time, hour: Time, x: Time) returns (i: nat)
    requires Tiles(buckets, lo, hi, hour) && lo <= x < hi
    ensures i < |buckets| && buckets[i].0 <= x < buckets[i].1
    ensures forall j :: 0 <= j < |buckets| && buckets[j].0 <= x < buckets[j].1 ==> j == i
  {
    var rest, last := buckets[..|buckets| - 1], buckets[|buckets| - 1];
    forall j | 0 <= j < |rest| ensures buckets[j].1 <= last.0 { BucketInside(rest, lo, last.0, hour, j); }
    if x < last.0 { i := EveryInstantInOneBucket(rest, lo, last.0, hour, x); } else { i := |buckets| - 1; }
  }

  // ---------------------------------------------------------------- hourly figures add up

  /** The three additive figures of a metric; open sessions run to the end of each window. */
  datatype Kind = OccupancyFigure | CompletedFigure | AssistFigure

  function Figure(f: Facts, kind: Kind, tables: set<Id>, lo: Time, hi: Time): nat {
    match kind
    case OccupancyFigure => OccupancySum(f.sessions, tables, lo, hi, hi)
    case CompletedFigure => CompletedCount(f.sessions, tables, lo, hi)
    case AssistFigure => AssistCount(f.assists, tables, lo, hi)
  }

  function FigureOf(m: Metric, kind: Kind): int {
    match kind
    case OccupancyFigure => m.occupancy
    case CompletedFigure => m.completed
    case AssistFigure => m.assists
  }

  lemma ClipAdds(s: Session, a: Time, b: Time, c: Time)
    requires a <= b <= c
    ensures Clip(s, a, b, b) + Clip(s, b, c, c) == Clip(s, a, c, c)
  {
  }

  lemma {:induction false} OccupancyAdds(sessions: seq<Session>, tables: set<Id>, a: Time, b: Time, c: Time)
    requires a <= b <= c
    ensures OccupancySum(sessions, tables, a, b, b) + OccupancySum(sessions, tables, b, c, c) == OccupancySum(sessions, tables, a, c, c)
  {
    if sessions != [] {
      OccupancyAdds(sessions[..|sessions| - 1], tables, a, b, c);
      ClipAdds(sessions[|sessions| - 1], a, b, c);
    }
  }

  lemma {:induction false} CompletedAdds(sessions: seq<Session>, tables: set<Id>, a: Time, b: Time, c: Time)
    requires a <= b <= c
    ensures CompletedCount(sessions, tables, a, b) + CompletedCount(sessions, tables, b, c) == CompletedCount(sessions, tables, a, c)
  {
    if sessions != [] { CompletedAdds(sessions[..|sessions| - 1], tables, a, b, c); }
  }

  lemma {:induction false} AssistsAdd(assists: seq<Assist>, tables: set<Id>, a: Time, b: Time, c: Time)
    requires a <= b <= c
    ensures AssistCount(assists, tables, a, b) + AssistCount(assists, tables, b, c) == AssistCount(assists, tables, a, c)
  {
    if assists != [] { AssistsAdd(assists[..|assists| - 1], tables, a, b, c); }
  }

  lemma FiguresAdd(f: Facts, kind: Kind, tables: set<Id>, a: Time, b: Time, c: Time)
    requires a <= b <= c
    ensures Figure(f, kind, tables, a, b) + Figure(f, kind, tables, b, c) == Figure(f, kind, tables, a, c)
  {
    match kind
    case OccupancyFigure => OccupancyAdds(f.sessions, tables, a, b, c);
    case CompletedFigure => CompletedAdds(f.sessions, tables, a, b, c);
    case AssistFigure => AssistsAdd(f.assists, tables, a, b, c);
  }

  predicate Distinct(tables: seq<Id>) {
    forall i, j :: 0 <= i < j < |tables| ==> tables[i] != tables[j]
  }

  function OverTables(f: Facts, kind: Kind, tables: seq<Id>, lo: Time, hi: Time): nat {
    if tables == [] then 0
    else OverTables(f, kind, tables[..|tables| - 1], lo, hi) + Figure(f, kind, {tables[|tables| - 1]}, lo, hi)
  }

  lemma {:induction false} OccupancySplits(sessions: seq<Session>, a: set<Id>, b: set<Id>, lo: Time, hi: Time, asOf: Time)
    requires a !! b
    ensures OccupancySum(sessions, a + b, lo, hi, asOf) == OccupancySum(sessions, a, lo, hi, asOf) + OccupancySum(sessions, b, lo, hi, asOf)
  {
    if sessions != [] { OccupancySplits(sessions[..|sessions| - 1], a, b, lo, hi, asOf); }
  }

  lemma {:induction false} CompletedSplits(sessions: seq<Session>, a: set<Id>, b: set<Id>, lo: Time, hi: Time)
    requires a !! b
    ensures CompletedCount(sessions, a + b, lo, hi) == CompletedCount(sessions, a, lo, hi) + CompletedCount(sessions, b, lo, hi)
  {
    if sessions != [] { CompletedSplits(sessions[..|sessions| - 1], a, b, lo, hi); }
  }

  lemma {:induction false} AssistsSplit(assists: seq<Assist>, a: set<Id>, b: set<Id>, lo: Time, hi: Time)
    requires a !! b
    ensures AssistCount(assists, a + b, lo, hi) == AssistCount(assists, a, lo, hi) + AssistCount(assists, b, lo, hi)
  {
    if assists != [] { AssistsSplit(assists[..|assists| - 1], a, b, lo, hi); }
  }

  /** Figures of disjoint sets of tables add up to that of their union. */
  lemma FigureSplits(f: Facts, kind: Kind, a: set<Id>, b: set<Id>, lo: Time, hi: Time)
    requires a !! b
    ensures Figure(f, kind, a + b, lo, hi) == Figure(f, kind, a, lo, hi) + Figure(f, kind, b, lo, hi)
  {
    match kind
    case OccupancyFigure => OccupancySplits(f.sessions, a, b, lo, hi, hi);
    case CompletedFigure => CompletedSplits(f.sessions, a, b, lo, hi);
    case AssistFigure => AssistsSplit(f.assists, a, b, lo, hi);
  }

  function SetOf(tables: seq<Id>): set<Id> {
    set i | 0 <= i < |tables| :: tables[i]
  }

  lemma NoTablesNoFigure(f: Facts, kind: Kind, lo: Time, hi: Time)
    ensures Figure(f, kind, {}, lo, hi) == 0
  {
    var none: set<Id> := {};
    FigureSplits(f, kind, none, none, lo, hi);
    assert none + none == none;
  }

  lemma {:induction false} TablesAddUp(f: Facts, kind: Kind, tables: seq<Id>, lo: Time, hi: Time)
    requires Distinct(tables)
    ensures OverTables(f, kind, tables, lo, hi) == Figure(f, kind, SetOf(tables), lo, hi)
  {
    if tables == [] {
      NoTablesNoFigure(f, kind, lo, hi);
      assert SetOf(tables) == {};
    } else {
      var rest, t := tables[..|tables| - 1], tables[|tables| - 1];
      TablesAddUp(f, kind, rest, lo, hi);
      assert SetOf(tables) == SetOf(rest) + {t};
      FigureSplits(f, kind, SetOf(rest), {t}, lo, hi);
    }
  }

  /** The hourly table rows of a day, one per table and bucket, summed over both. */
  function HourlyTotal(f: Facts, kind: Kind, tables: seq<Id>, buckets: seq<(Time, Time)>): int {
    if buckets == [] then 0
    else
      var b := buckets[|buckets| - 1];
      HourlyTotal(f, kind, tables, buckets[..|buckets| - 1]) + TableTotal(f, kind, tables, b.0, b.1)
  }

  function TableTotal(f: Facts, kind: Kind, tables: seq<Id>, lo: Time, hi: Time): int {
    if tables == [] then 0
    else TableTotal(f, kind, tables[..|tables| - 1], lo, hi) + FigureOf(WindowMetric(f, {tables[|tables| - 1]}, lo, hi, hi), kind)
  }

  lemma {:induction false} TableTotalIsFigures(f: Facts, kind: Kind, tables: seq<Id>, lo: Time, hi: Time)
    ensures TableTotal(f, kind, tables, lo, hi) == OverTables(f, kind, tables, lo, hi)
  {
    if tables != [] { TableTotalIsFigures(f, kind, tables[..|tables| - 1], lo, hi); }
  }

  lemma {:induction false} HourlyTotalTiles(f: Facts, kind: Kind, tables: seq<Id>, buckets: seq<(Time, Time)>, lo: Time, hi: Time, hour: Time)
    requires Tiles(buckets, lo, hi, hour) && Distinct(tables)
    ensures HourlyTotal(f, kind, tables, buckets) == Figure(f, kind, SetOf(tables), lo, hi)
  {
    if buckets == [] {
      FiguresAdd(f, kind, SetOf(tables), lo, lo, lo);
    } else {
      var b := buckets[|buckets| - 1];
      HourlyTotalTiles(f, kind, tables, buckets[..|buckets| - 1], lo, b.0, hour);
      TableTotalIsFigures(f, kind, tables, b.0, b.1);
      TablesAddUp(f, kind, tables, b.0, b.1);
      TilesOrdered(buckets[..|buckets| - 1], lo, b.0, hour);
      FiguresAdd(f, kind, SetOf(tables), lo, b.0, hi);
    }
  }

  /**
   For a day of any length, the hourly table rows summed over hours and tables are the day's location
   row, for occupancy (open sessions included), completed sessions and assist requests.
   */
  lemma HoursAddUpToTheDay(f: Facts, kind: Kind, tables: seq<Id>, dayStart: Time, dayEnd: Time, hour: Time)
    requires dayStart < dayEnd && hour > 0 && Distinct(tables)
    ensures HourlyTotal(f, kind, tables, Hours(dayStart, dayEnd, hour)) == FigureOf(WindowMetric(f, SetOf(tables), dayStart, dayEnd, dayEnd), kind)
  {
    DayIsTiled(dayStart, dayEnd, hour);
    HourlyTotalTiles(f, kind, tables, Hours(dayStart, dayEnd, hour), dayStart, dayEnd, hour);
  }

  /** The buckets of the hour loop tile a day of any length. */
  lemma DayIsTiled(dayStart: Time, dayEnd: Time, hour: Time)
    requires dayStart <= dayEnd && hour > 0
    ensures Tiles(Hours(dayStart, dayEnd, hour), dayStart, dayEnd, hour)
  {
    HoursTile(dayStart, dayEnd, hour, dayStart, []);
    assert [] + Hours(dayStart, dayEnd, hour) == Hours(dayStart, dayEnd, hour);
  }

  lemma {:induction false} HoursTile(lo: Time, hi: Time, hour: Time, from: Time, before: seq<(Time, Time)>)
    requires hour > 0 && from <= hi && Tiles(before, lo, from, hour)
    ensures Tiles(before + Hours(from, hi, hour), lo, hi, hour)
    decreases hi - from
  {
    if from == hi {
      assert before + Hours(from, hi, hour) == before;
    } else {
      var b := (from, Min(from + hour, hi));
      assert (before + [b])[..|before|] == before;
      assert Tiles(before + [b], lo, b.1, hour);
      HoursTile(lo, hi, hour, b.1, before + [b]);
      assert Hours(from, hi, hour) == [b] + Hours(b.1, hi, hour);
      assert before + [b] + Hours(b.1, hi, hour) == before + Hours(from, hi, hour);
    }
  }
}
