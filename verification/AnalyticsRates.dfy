/** What the figures and rates of a window metric measure, counted in tables, instants and rows. */
module AnalyticsRates {
  import opened Common
  import opened Operations
  import opened Analytics

  /** At instant `x` the table has a session that has started and, as far as known at `asOf`, not ended. */
  predicate InUseAt(sessions: seq<Session>, t: Id, x: Time, asOf: Time) {
    exists i | 0 <= i < |sessions| :: sessions[i].table == t && sessions[i].startedAt <= x
                                      && if sessions[i].endedAt.Some? then x < sessions[i].endedAt.value else x < asOf
  }

  function UsedTables(sessions: seq<Session>, tables: set<Id>, x: Time, asOf: Time): set<Id> {
    set t | t in tables && InUseAt(sessions, t, x, asOf)
  }

  /** The pairs of a table and an instant of the window. */
  function Pairs(tables: set<Id>, lo: Time, hi: Time): set<(Id, Time)> {
    set t, x | t in tables && lo <= x < hi :: (t, x)
  }

  function UsedPairs(sessions: seq<Session>, tables: set<Id>, lo: Time, hi: Time, asOf: Time): set<(Id, Time)> {
    set t, x | t in tables && lo <= x < hi && InUseAt(sessions, t, x, asOf) :: (t, x)
  }

  function At(tables: set<Id>, x: Time): set<(Id, Time)> {
    set t | t in tables :: (t, x)
  }

  lemma {:induction false} AtAreAsMany(tables: set<Id>, x: Time)
    ensures |At(tables, x)| == |tables|
    decreases |tables|
  {
    if tables != {} {
      var t :| t in tables;
      AtAreAsMany(tables - {t}, x);
      assert At(tables, x) == At(tables - {t}, x) + {(t, x)};
    }
  }

  lemma {:induction false} PairsAreAsMany(tables: set<Id>, lo: Time, hi: Time)
    requires lo <= hi
    ensures |Pairs(tables, lo, hi)| == |tables| * (hi - lo)
    decreases hi - lo
  {
    if lo == hi {
      assert Pairs(tables, lo, hi) == {};
    } else {
      PairsAreAsMany(tables, lo, hi - 1);
      AtAreAsMany(tables, hi - 1);
      assert Pairs(tables, lo, hi) == Pairs(tables, lo, hi - 1) + At(tables, hi - 1);
      assert |tables| * (hi - lo) == |tables| * (hi - 1 - lo) + |tables|;
    }
  }

  lemma InUseLast(sessions: seq<Session>, t: Id, x: Time, asOf: Time)
    requires sessions != []
    ensures var rest, s := sessions[..|sessions| - 1], sessions[|sessions| - 1];
            InUseAt(sessions, t, x, asOf) <==> InUseAt(rest, t, x, asOf) || (s.table == t && Covers(s, x, asOf))
  {
    var rest := sessions[..|sessions| - 1];
    assert forall i :: 0 <= i < |rest| ==> rest[i] == sessions[i];
  }

  /** Disjoint sessions in use at an instant are as many as the tables in use. */
  lemma {:induction false} InUseCountsTables(sessions: seq<Session>, tables: set<Id>, x: Time, asOf: Time)
    requires PairwiseDisjoint(sessions, tables)
    ensures InUse(sessions, tables, x, asOf) == |UsedTables(sessions, tables, x, asOf)|
  {
    if sessions == [] {
      assert UsedTables(sessions, tables, x, asOf) == {};
    } else {
      var rest, s := sessions[..|sessions| - 1], sessions[|sessions| - 1];
      InUseCountsTables(rest, tables, x, asOf);
      forall t ensures InUseAt(sessions, t, x, asOf) <==> InUseAt(rest, t, x, asOf) || (s.table == t && Covers(s, x, asOf)) {
        InUseLast(sessions, t, x, asOf);
      }
      if s.table in tables && Covers(s, x, asOf) {
        OthersRest(sessions, tables, x, asOf);
        assert UsedTables(sessions, tables, x, asOf) == UsedTables(rest, tables, x, asOf) + {s.table};
      } else {
        assert UsedTables(sessions, tables, x, asOf) == UsedTables(rest, tables, x, asOf);
      }
    }
  }

  /** While the last session runs no other one of its table does. */
  lemma OthersRest(sessions: seq<Session>, tables: set<Id>, x: Time, asOf: Time)
    requires sessions != [] && PairwiseDisjoint(sessions, tables)
    requires sessions[|sessions| - 1].table in tables && Covers(sessions[|sessions| - 1], x, asOf)
    ensures !InUseAt(sessions[..|sessions| - 1], sessions[|sessions| - 1].table, x, asOf)
  {
    var rest, s := sessions[..|sessions| - 1], sessions[|sessions| - 1];
    forall i | 0 <= i < |rest| && rest[i].table == s.table ensures !Covers(rest[i], x, asOf) {
      assert T.Before(sessions[i], s) || T.Before(s, sessions[i]);
    }
  }

  /** The occupancy of a window is the number of pairs of a table and an instant at which it is in use. */
  lemma {:induction false} OccupancyCountsPairs(sessions: seq<Session>, tables: set<Id>, lo: Time, hi: Time, asOf: Time)
    requires PairwiseDisjoint(sessions, tables) && lo <= hi
    ensures OccupancySum(sessions, tables, lo, hi, asOf) == |UsedPairs(sessions, tables, lo, hi, asOf)|
    decreases hi - lo
  {
    if lo == hi {
      NothingInEmptyWindow(sessions, tables, lo, hi, asOf);
      assert UsedPairs(sessions, tables, lo, hi, asOf) == {};
    } else {
      var last := UsedTables(sessions, tables, hi - 1, asOf);
      OccupancyCountsPairs(sessions, tables, lo, hi - 1, asOf);
      OccupancyGrows(sessions, tables, lo, hi, asOf);
      InUseCountsTables(sessions, tables, hi - 1, asOf);
      AtAreAsMany(last, hi - 1);
      assert UsedPairs(sessions, tables, lo, hi, asOf) == UsedPairs(sessions, tables, lo, hi - 1, asOf) + At(last, hi - 1);
    }
  }

  lemma RateTimesBasis(a: nat, b: nat, rate: real)
    requires b > 0 && rate == a as real / b as real
    ensures rate * b as real == a as real && (rate == 1.0 <==> a == b) && (rate == 0.0 <==> a == 0)
  {
    var x, y := a as real, b as real;
    assert y > 0.0 && rate * y == x;
    if rate == 1.0 { assert x == 1.0 * y; }
    if a == b { assert x == y && x / y == 1.0; }
    if rate == 0.0 { assert x == 0.0 * y; }
  }

  /**
   Over disjoint sessions the utilisation rate is the share of the pairs of a table and an instant at which
   the table is in use: 1 if and only if every table is in use at every instant, 0 if and only if none ever is.
   */
  lemma UtilisationIsTheShareInUse(f: Facts, tables: set<Id>, lo: Time, hi: Time, asOf: Time)
    requires PairwiseDisjoint(f.sessions, tables) && lo < hi && tables != {}
    ensures var m := WindowMetric(f, tables, lo, hi, asOf);
            && m.utilisation * (|tables| * (hi - lo)) as real == |UsedPairs(f.sessions, tables, lo, hi, asOf)| as real
            && (m.utilisation == 1.0 <==> forall t, x :: t in tables && lo <= x < hi ==> InUseAt(f.sessions, t, x, asOf))
            && (m.utilisation == 0.0 <==> forall t, x :: t in tables && lo <= x < hi ==> !InUseAt(f.sessions, t, x, asOf))
  {
    UtilisationIsQuotient(f, tables, lo, hi, asOf);
    RateTimesBasis(|UsedPairs(f.sessions, tables, lo, hi, asOf)|, |Pairs(tables, lo, hi)|, WindowMetric(f, tables, lo, hi, asOf).utilisation);
    AllUsedIff(f.sessions, tables, lo, hi, asOf);
    NoneUsedIff(f.sessions, tables, lo, hi, asOf);
  }

  lemma UtilisationIsQuotient(f: Facts, tables: set<Id>, lo: Time, hi: Time, asOf: Time)
    requires PairwiseDisjoint(f.sessions, tables) && lo < hi && tables != {}
    ensures |Pairs(tables, lo, hi)| == |tables| * (hi - lo) > 0
    ensures WindowMetric(f, tables, lo, hi, asOf).utilisation == |UsedPairs(f.sessions, tables, lo, hi, asOf)| as real / |Pairs(tables, lo, hi)| as real
  {
    OccupancyCountsPairs(f.sessions, tables, lo, hi, asOf);
    PairsAreAsMany(tables, lo, hi);
    BasisPositive(|tables|, hi - lo);
  }

  lemma AllUsedIff(sessions: seq<Session>, tables: set<Id>, lo: Time, hi: Time, asOf: Time)
    ensures |UsedPairs(sessions, tables, lo, hi, asOf)| == |Pairs(tables, lo, hi)| <==>
            forall t, x :: t in tables && lo <= x < hi ==> InUseAt(sessions, t, x, asOf)
  {
    var used, all := UsedPairs(sessions, tables, lo, hi, asOf), Pairs(tables, lo, hi);
    UsedIsAllIff(used, all);
    if used == all {
      forall t, x | t in tables && lo <= x < hi ensures InUseAt(sessions, t, x, asOf) { assert (t, x) in all; }
    } else {
      var pair :| pair in all && pair !in used;
      assert !InUseAt(sessions, pair.0, pair.1, asOf);
    }
  }

  lemma NoneUsedIff(sessions: seq<Session>, tables: set<Id>, lo: Time, hi: Time, asOf: Time)
    ensures |UsedPairs(sessions, tables, lo, hi, asOf)| == 0 <==> forall t, x :: t in tables && lo <= x < hi ==> !InUseAt(sessions, t, x, asOf)
  {
    var used := UsedPairs(sessions, tables, lo, hi, asOf);
    if used == {} {
      forall t, x | t in tables && lo <= x < hi ensures !InUseAt(sessions, t, x, asOf) { assert (t, x) !in used; }
    } else {
      var pair :| pair in used;
      assert InUseAt(sessions, pair.0, pair.1, asOf);
    }
  }

  lemma BasisPositive(n: nat, length: int)
    requires n > 0 && length > 0
    ensures n * length > 0
  {
  }

  lemma UsedIsAllIff(used: set<(Id, Time)>, all: set<(Id, Time)>)
    requires used <= all
    ensures |used| == |all| <==> used == all
  {
    assert all == used + (all - used);
  }

  /** An empty window, or one without tables, leaves both rates their zeros. */
  lemma NoBasisNoRate(f: Facts, tables: set<Id>, lo: Time, hi: Time, asOf: Time)
    ensures hi <= lo || tables == {} ==> WindowMetric(f, tables, lo, hi, asOf).utilisation == 0.0
    ensures tables == {} ==> WindowMetric(f, tables, lo, hi, asOf).turnover == 0.0
  {
    if hi <= lo { assert |tables| * (hi - lo) <= 0; }
  }

  /** Another session that overlaps none of the others never lowers the rate. */
  lemma MoreSessionsMoreUse(f: Facts, s: Session, tables: set<Id>, lo: Time, hi: Time, asOf: Time)
    requires PairwiseDisjoint(f.sessions + [s], tables) && lo < hi && tables != {}
    ensures WindowMetric(f, tables, lo, hi, asOf).utilisation <= WindowMetric(f.(sessions := f.sessions + [s]), tables, lo, hi, asOf).utilisation
  {
    var more := f.(sessions := f.sessions + [s]);
    assert PairwiseDisjoint(f.sessions, tables) by {
      assert forall i :: 0 <= i < |f.sessions| ==> f.sessions[i] == more.sessions[i];
    }
    OccupancyCountsPairs(f.sessions, tables, lo, hi, asOf);
    OccupancyCountsPairs(more.sessions, tables, lo, hi, asOf);
    var used, grown := UsedPairs(f.sessions, tables, lo, hi, asOf), UsedPairs(more.sessions, tables, lo, hi, asOf);
    forall t, x | InUseAt(f.sessions, t, x, asOf) ensures InUseAt(more.sessions, t, x, asOf) {
      InUseLast(more.sessions, t, x, asOf);
      assert more.sessions[..|f.sessions|] == f.sessions;
    }
    SubsetIsSmaller(used, grown);
    BasisPositive(|tables|, hi - lo);
    QuotientGrows(|used|, |grown|, |tables| * (hi - lo));
  }

  lemma SubsetIsSmaller(used: set<(Id, Time)>, grown: set<(Id, Time)>)
    requires used <= grown
    ensures |used| <= |grown|
  {
    assert grown == used + (grown - used);
  }

  lemma QuotientGrows(a: nat, b: nat, n: nat)
    requires a <= b && n > 0
    ensures a as real / n as real <= b as real / n as real
  {
  }

  // ---------------------------------------------------------------- rows counted

  predicate EndsInside(s: Session, tables: set<Id>, lo: Time, hi: Time) {
    match s.endedAt
    case None => false
    case Some(end) => s.table in tables && lo <= end && end < hi && s.startedAt <= end
  }

  predicate EndsBeforeItStarts(s: Session, tables: set<Id>) {
    match s.endedAt
    case None => false
    case Some(end) => s.table in tables && end < s.startedAt
  }

  /** The places of the sessions of these tables that ended inside the window, and not before they started. */
  function EndedIn(sessions: seq<Session>, tables: set<Id>, lo: Time, hi: Time): set<nat> {
    set i | 0 <= i < |sessions| && EndsInside(sessions[i], tables, lo, hi)
  }

  /** The places of the sessions of these tables that ended before they started. */
  function Impossible(sessions: seq<Session>, tables: set<Id>): set<nat> {
    set i | 0 <= i < |sessions| && EndsBeforeItStarts(sessions[i], tables)
  }

  /** The places of the requests for these tables made inside the window. */
  function MadeIn(assists: seq<Assist>, tables: set<Id>, lo: Time, hi: Time): set<nat> {
    set i | 0 <= i < |assists| && assists[i].table in tables && lo <= assists[i].requestedAt && assists[i].requestedAt < hi
  }

  lemma {:induction false} CompletedCountsRows(sessions: seq<Session>, tables: set<Id>, lo: Time, hi: Time)
    ensures CompletedCount(sessions, tables, lo, hi) == |EndedIn(sessions, tables, lo, hi)|
  {
    if sessions == [] {
      assert EndedIn(sessions, tables, lo, hi) == {};
    } else {
      var rest, last := sessions[..|sessions| - 1], |sessions| - 1;
      CompletedCountsRows(rest, tables, lo, hi);
      assert EndedIn(sessions, tables, lo, hi) == EndedIn(rest, tables, lo, hi) + if EndsInside(sessions[last], tables, lo, hi) then {last} else {};
    }
  }

  lemma {:induction false} AnomaliesCountRows(sessions: seq<Session>, tables: set<Id>)
    ensures AnomalyCount(sessions, tables) == |Impossible(sessions, tables)|
  {
    if sessions == [] {
      assert Impossible(sessions, tables) == {};
    } else {
      var rest, last := sessions[..|sessions| - 1], |sessions| - 1;
      AnomaliesCountRows(rest, tables);
      assert Impossible(sessions, tables) == Impossible(rest, tables) + if EndsBeforeItStarts(sessions[last], tables) then {last} else {};
    }
  }

  lemma {:induction false} AssistsCountRows(assists: seq<Assist>, tables: set<Id>, lo: Time, hi: Time)
    ensures AssistCount(assists, tables, lo, hi) == |MadeIn(assists, tables, lo, hi)|
  {
    if assists == [] {
      assert MadeIn(assists, tables, lo, hi) == {};
    } else {
      var rest, last := assists[..|assists| - 1], |assists| - 1;
      AssistsCountRows(rest, tables, lo, hi);
      assert MadeIn(assists, tables, lo, hi) == MadeIn(rest, tables, lo, hi) + (if last in MadeIn(assists, tables, lo, hi) then {last} else {});
    }
  }

  /** The counts of a metric are numbers of rows, and turnover times tables is the number of completed sessions. */
  lemma MetricCountsRows(f: Facts, tables: set<Id>, lo: Time, hi: Time, asOf: Time)
    ensures var m := WindowMetric(f, tables, lo, hi, asOf);
            && m.activeTables == |tables| && m.basis == |tables| * (hi - lo)
            && m.completed == |EndedIn(f.sessions, tables, lo, hi)|
            && m.assists == |MadeIn(f.assists, tables, lo, hi)| && m.anomalies == |Impossible(f.sessions, tables)|
            && (tables != {} ==> m.turnover * |tables| as real == |EndedIn(f.sessions, tables, lo, hi)| as real)
  {
    CompletedCountsRows(f.sessions, tables, lo, hi);
    AnomaliesCountRows(f.sessions, tables);
    AssistsCountRows(f.assists, tables, lo, hi);
    if tables != {} { RateTimesBasis(|EndedIn(f.sessions, tables, lo, hi)|, |tables|, WindowMetric(f, tables, lo, hi, asOf).turnover); }
  }
}
