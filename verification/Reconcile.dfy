/**
 Reconciliation of a vendor's table states with the floor, `internal/domain/integrations/service.go`:
 one connection, its mappings, and a loop that drives the commands of Operations.
 */
module Reconcile {
  import opened Common
  import opened Operations
  import opened TableHistory

  datatype MappingStatus = Mapped | Unmapped | Ignored

  datatype Mapping = Mapping(table: Option<Id>, status: MappingStatus)

  /** A vendor status; the tables of the schema hold only the two known ones. */
  datatype VendorStatus = Known(status: TableStatus) | Unknown

  datatype ExternalState = ExternalState(external: string, status: VendorStatus)

  datatype Resolution = AutoCorrected | ReviewRequired

  datatype DiscrepancyType = UnmappedTable | OccupancyMismatch | AmbiguousConflict

  datatype Discrepancy = Discrepancy(external: string, table: Option<Id>, kind: DiscrepancyType,
                                     seatd: Option<TableStatus>, vendor: TableStatus, resolution: Resolution)

  datatype World = World(db: Db, mappings: map<string, Mapping>, discrepancies: seq<Discrepancy>)

  /** The command id, payload hash, clock and ids of one correcting command. */
  datatype Draw = Draw(command: Id, payloadHash: nat, env: Env)

  datatype Failure = FetchFailure | ValidationFailure | NotMapped | MissingTable | RowRefused | CommandFailure(error: Error)

  datatype Outcome = Outcome(discrepancy: bool, corrected: bool)

  const COMMAND_TYPE := "integration.table_state"

  // ---------------------------------------------------------------- one entry

  /** `INSERT … ON CONFLICT DO UPDATE`: an unseen external id becomes an unmapped row. */
  function Upserted(mappings: map<string, Mapping>, external: string): map<string, Mapping> {
    if external in mappings then mappings else mappings[external := Mapping(None, Unmapped)]
  }

  function MappedTable(mappings: map<string, Mapping>, external: string): Option<Id> {
    if external in mappings && mappings[external].status == Mapped then mappings[external].table else None
  }

  predicate HasActiveAssists(db: Db, t: Id) {
    exists a | a in db.assists :: db.assists[a].table == t && (db.assists[a].status == Pending || db.assists[a].status == Acknowledged)
  }

  function CorrectingRequest(t: Id, expected: int, next: TableStatus, partySize: Option<int>, d: Draw): Request {
    Request(d.command, COMMAND_TYPE, d.payloadHash,
            if next == Occupied then OccupyTable(t, expected, partySize) else ClearTable(t, expected), NoEncoder, d.env)
  }

  /** The table already being there is not an error. */
  predicate Tolerated(next: TableStatus, error: Error) {
    error == if next == Occupied then AlreadyOccupied else AlreadyAvailable
  }

  ghost function ApplyTableState(db: Db, t: Id, expected: int, next: TableStatus, partySize: Option<int>, d: Draw): (Db, Option<Error>) {
    var (after, response) := RunCommand(db, CorrectingRequest(t, expected, next, partySize, d));
    (after, if response.Failed? && !Tolerated(next, response.error) then Some(response.error) else None)
  }

  function WithDiscrepancy(w: World, d: Discrepancy): World {
    w.(discrepancies := w.discrepancies + [d])
  }

  /** An unknown vendor status is refused by the discrepancy table. */
  ghost function ReconcileTableState(w: World, e: ExternalState, d: Draw): (World, Result<Outcome, Failure>) {
    if e.external == "" then (w, Err(RowRefused))
    else
      var w1 := w.(mappings := Upserted(w.mappings, e.external));
      match MappedTable(w1.mappings, e.external)
      case None =>
        if e.status.Unknown? then (w1, Err(RowRefused))
        else (WithDiscrepancy(w1, Discrepancy(e.external, None, UnmappedTable, None, e.status.status, ReviewRequired)), Ok(Outcome(true, false)))
      case Some(t) =>
        if t !in w1.db.occupancy then (w1, Err(MissingTable))
        else
          var current := w1.db.occupancy[t];
          if e.status == Known(current.status) then (w1, Ok(Outcome(false, false)))
          else if e.status.Unknown? then (w1, Err(RowRefused))
          else if HasActiveAssists(w1.db, t) then
            (WithDiscrepancy(w1, Discrepancy(e.external, Some(t), AmbiguousConflict, Some(current.status), e.status.status, ReviewRequired)),
             Ok(Outcome(true, false)))
          else
            var w2 := WithDiscrepancy(w1, Discrepancy(e.external, Some(t), OccupancyMismatch, Some(current.status), e.status.status, AutoCorrected));
            var (db1, error) := ApplyTableState(w2.db, t, current.version, e.status.status, None, d);
            (w2.(db := db1), if error.Some? then Err(CommandFailure(error.value)) else Ok(Outcome(true, true)))
  }

  // ---------------------------------------------------------------- the whole run

  datatype RunRow = Completed(checked: nat, discrepancies: nat, corrected: nat)
                  | FailedRun(checked: nat, discrepancies: nat, corrected: nat, failure: Failure)

  /** The loop as a recursion on the entries handled so far: the counters, or the error it stopped at. */
  ghost function ReconcileFirst(w: World, states: seq<ExternalState>, draws: seq<Draw>, n: nat): (World, RunRow)
    requires n <= |states| == |draws|
  {
    if n == 0 then (w, Completed(0, 0, 0))
    else
      var (before, row) := ReconcileFirst(w, states, draws, n - 1);
      if row.FailedRun? then (before, row)
      else
        var (after, outcome) := ReconcileTableState(before, states[n - 1], draws[n - 1]);
        match outcome
        case Err(f) => (after, FailedRun(|states|, row.discrepancies, row.corrected, f))
        case Ok(o) =>
          (after, Completed(n, row.discrepancies + (if o.discrepancy then 1 else 0), row.corrected + (if o.corrected then 1 else 0)))
  }

  ghost function ReconcileConnection(w: World, states: seq<ExternalState>, draws: seq<Draw>): (World, RunRow)
    requires |states| == |draws|
  {
    ReconcileFirst(w, states, draws, |states|)
  }

  /** A run whose states could not be fetched fails at once, with nothing counted. */
  ghost function ReconcileFetched(w: World, fetched: Result<seq<ExternalState>, Failure>, draws: seq<Draw>): (World, RunRow)
    requires fetched.Ok? ==> |fetched.value| == |draws|
  {
    match fetched
    case Err(f) => (w, FailedRun(0, 0, 0, f))
    case Ok(states) => ReconcileConnection(w, states, draws)
  }

  // ---------------------------------------------------------------- the reference adapter

  /** One `referenceTables` entry of a connection's configuration. */
  datatype ConfiguredTable = ConfiguredTable(externalTableId: string, status: string)

  function StatusOf(status: string): VendorStatus {
    if status == "available" then Known(Available) else if status == "occupied" then Known(Occupied) else Unknown
  }

  /** `FetchExternalStatus` keeps the entries with an id and a valid status, in order. */
  function FetchedStates(tables: seq<ConfiguredTable>): seq<ExternalState> {
    if tables == [] then []
    else
      var last := tables[|tables| - 1];
      FetchedStates(tables[..|tables| - 1])
      + if TrimSpace(last.externalTableId) == "" || StatusOf(last.status).Unknown? then []
        else [ExternalState(TrimSpace(last.externalTableId), StatusOf(last.status))]
  }

  /** Whatever is configured, the reference adapter hands on only states that a run can reconcile. */
  lemma {:induction false} FetchedIsWellFormed(tables: seq<ConfiguredTable>)
    ensures WellFormed(FetchedStates(tables))
  {
    if tables != [] { FetchedIsWellFormed(tables[..|tables| - 1]); }
  }

  // ---------------------------------------------------------------- what a correction does

  /** Fresh ids and a clock that has not gone back: what the generators promise. */
  ghost predicate FreshDraw(db: Db, d: Draw) {
    && d.command != NIL && d.command !in db.idempotency
    && d.env.rowId !in db.sessions && !HasEvent(db.events, d.env.eventId)
    && forall s :: s in db.sessions ==> db.sessions[s].startedAt <= d.env.began
  }

  /** A table that the commands can act on. */
  predicate Active(db: Db, t: Id) {
    t in db.occupancy && t in db.live
  }

  /** All that a correction changes: the one table's row, its sessions, the log, the outbox and the record. */
  ghost predicate Moved(db: Db, after: Db, t: Id, next: TableStatus)
    requires t in db.occupancy
  {
    && after.live == db.live && after.assists == db.assists
    && t in after.occupancy && after.occupancy[t].status == next && after.occupancy[t].version == db.occupancy[t].version + 1
    && after.occupancy == db.occupancy[t := after.occupancy[t]]
  }

  lemma CorrectingOccupy(db: Db, t: Id, partySize: Option<int>, d: Draw)
    requires Active(db, t) && db.occupancy[t].status == Available && FreshDraw(db, d)
    requires partySize.Some? ==> partySize.value > 0
    ensures var (after, error) := ApplyTableState(db, t, db.occupancy[t].version, Occupied, partySize, d); error.None? && Moved(db, after, t, Occupied)
  {
    var r := CorrectingRequest(t, db.occupancy[t].version, Occupied, partySize, d);
    assert Execute(db, r).Ok?;
    assert Commit(db, r).Ok?;
    CommitShape(db, r);
  }

  lemma CorrectingClear(db: Db, t: Id, d: Draw)
    requires TablesAgree(db) && Active(db, t) && db.occupancy[t].status == Occupied && FreshDraw(db, d)
    ensures var (after, error) := ApplyTableState(db, t, db.occupancy[t].version, Available, None, d); error.None? && Moved(db, after, t, Available)
  {
    var r := CorrectingRequest(t, db.occupancy[t].version, Available, None, d);
    assert SessionsAgree(db, t);
    assert Execute(db, r).Ok?;
    assert Commit(db, r).Ok?;
    CommitShape(db, r);
  }

  /** The command machine's own invariant is what makes every correction succeed. */
  lemma CorrectionSucceeds(db: Db, t: Id, next: TableStatus, partySize: Option<int>, d: Draw)
    requires TablesAgree(db) && Active(db, t) && db.occupancy[t].status != next && FreshDraw(db, d)
    requires partySize.Some? ==> partySize.value > 0
    ensures var (after, error) := ApplyTableState(db, t, db.occupancy[t].version, next, partySize, d);
            error.None? && Moved(db, after, t, next) && TablesAgree(after)
  {
    var r := CorrectingRequest(t, db.occupancy[t].version, next, partySize, d);
    ApplyAgrees(db, Submit(r));
    if next == Occupied { CorrectingOccupy(db, t, partySize, d); }
    else {
      CorrectingClear(db, t, d);
      assert CorrectingRequest(t, db.occupancy[t].version, next, partySize, d) == CorrectingRequest(t, db.occupancy[t].version, next, None, d);
    }
  }

  // ---------------------------------------------------------------- runs

  /** Every mapped table is active, and the floor is in a reachable shape. */
  ghost predicate Ready(w: World) {
    && TablesAgree(w.db)
    && forall x :: MappedTable(w.mappings, x).Some? ==> Active(w.db, MappedTable(w.mappings, x).value)
  }

  predicate Good(e: ExternalState) {
    e.external != "" && e.status.Known?
  }

  predicate WellFormed(states: seq<ExternalState>) {
    forall i :: 0 <= i < |states| ==> Good(states[i])
  }

  /** Each correcting command draws against the rows it runs on. */
  ghost predicate FreshRun(w: World, states: seq<ExternalState>, draws: seq<Draw>, n: nat)
    requires n <= |states| == |draws|
  {
    n > 0 ==> FreshRun(w, states, draws, n - 1) && FreshDraw(ReconcileFirst(w, states, draws, n - 1).0.db, draws[n - 1])
  }

  /** The entry maps to this table. */
  predicate For(w: World, e: ExternalState, t: Id) {
    MappedTable(w.mappings, e.external) == Some(t)
  }

  /** The status a table ends at: that of the last of the first `n` entries for it, or its own. */
  function Wanted(w: World, states: seq<ExternalState>, n: nat, t: Id): TableStatus
    requires n <= |states| && WellFormed(states) && t in w.db.occupancy
  {
    if n == 0 || HasActiveAssists(w.db, t) then w.db.occupancy[t].status
    else if For(w, states[n - 1], t) then states[n - 1].status.status
    else Wanted(w, states, n - 1, t)
  }

  function Reviews(discrepancies: seq<Discrepancy>): nat {
    if discrepancies == [] then 0
    else Reviews(discrepancies[..|discrepancies| - 1]) + if discrepancies[|discrepancies| - 1].resolution == ReviewRequired then 1 else 0
  }

  /** How a reconciled world relates to the one it started from. */
  ghost predicate Follows(w: World, after: World, states: seq<ExternalState>, n: nat)
    requires n <= |states| && WellFormed(states)
  {
    && Ready(after) && after.db.assists == w.db.assists && after.db.live == w.db.live
    && (forall x :: MappedTable(after.mappings, x) == MappedTable(w.mappings, x))
    && after.db.occupancy.Keys == w.db.occupancy.Keys
    && (forall t :: t in w.db.occupancy ==> after.db.occupancy[t].status == Wanted(w, states, n, t))
    && (forall t :: t in w.db.occupancy && (HasActiveAssists(w.db, t) || forall i :: 0 <= i < n ==> !For(w, states[i], t)) ==>
          after.db.occupancy[t] == w.db.occupancy[t])
  }

  /** What one entry may change on the floor: the table it is for, unless assists are active there. */
  ghost predicate Effected(w: World, after: World, e: ExternalState, corrected: bool)
    requires e.status.Known?
  {
    && Ready(after) && after.db.assists == w.db.assists && after.db.live == w.db.live
    && (forall x :: MappedTable(after.mappings, x) == MappedTable(w.mappings, x))
    && after.db.occupancy.Keys == w.db.occupancy.Keys
    && (forall t :: t in w.db.occupancy ==>
          if For(w, e, t) && !HasActiveAssists(w.db, t) then after.db.occupancy[t].status == e.status.status
          else after.db.occupancy[t] == w.db.occupancy[t])
    && (corrected <==>
          exists t :: For(w, e, t) && t in w.db.occupancy && !HasActiveAssists(w.db, t) && w.db.occupancy[t].status != e.status.status)
    && (!corrected ==> after.db == w.db)
  }

  lemma EntryEffect(w: World, e: ExternalState, d: Draw)
    requires Ready(w) && e.external != "" && e.status.Known? && FreshDraw(w.db, d)
    ensures var (after, outcome) := ReconcileTableState(w, e, d); outcome.Ok? && Effected(w, after, e, outcome.value.corrected)
  {
    var mappings := Upserted(w.mappings, e.external);
    assert forall x :: MappedTable(mappings, x) == MappedTable(w.mappings, x);
    match MappedTable(w.mappings, e.external)
    case None =>
    case Some(t) =>
      assert forall u :: For(w, e, u) <==> u == t;
      if w.db.occupancy[t].status != e.status.status && !HasActiveAssists(w.db, t) {
        CorrectionSucceeds(w.db, t, e.status.status, None, d);
      }
  }

  /** Each entry with a discrepancy appends one row, which says whether it was corrected. */
  lemma EntryRecords(w: World, e: ExternalState, d: Draw)
    ensures var (after, outcome) := ReconcileTableState(w, e, d);
            outcome.Ok? ==>
              (if outcome.value.discrepancy
               then |after.discrepancies| == |w.discrepancies| + 1 && after.discrepancies[..|w.discrepancies|] == w.discrepancies
                    && (outcome.value.corrected <==> after.discrepancies[|w.discrepancies|].resolution == AutoCorrected)
               else after.discrepancies == w.discrepancies && !outcome.value.corrected)
  {
  }

  lemma EntryExtends(w: World, before: World, after: World, states: seq<ExternalState>, n: nat, corrected: bool)
    requires 0 < n <= |states| && WellFormed(states) && Follows(w, before, states, n - 1)
    requires Effected(before, after, states[n - 1], corrected)
    ensures Follows(w, after, states, n)
  {
    forall t | t in w.db.occupancy
      ensures after.db.occupancy[t].status == Wanted(w, states, n, t)
      ensures HasActiveAssists(w.db, t) || (forall i :: 0 <= i < n ==> !For(w, states[i], t)) ==> after.db.occupancy[t] == w.db.occupancy[t] {
      assert For(before, states[n - 1], t) == For(w, states[n - 1], t);
      assert HasActiveAssists(before.db, t) == HasActiveAssists(w.db, t);
    }
  }

  lemma EntryFollows(w: World, before: World, states: seq<ExternalState>, n: nat, d: Draw)
    requires 0 < n <= |states| && WellFormed(states) && Follows(w, before, states, n - 1) && FreshDraw(before.db, d)
    ensures var (after, outcome) := ReconcileTableState(before, states[n - 1], d); outcome.Ok? && Follows(w, after, states, n)
  {
    EntryEffect(before, states[n - 1], d);
    var (after, outcome) := ReconcileTableState(before, states[n - 1], d);
    EntryExtends(w, before, after, states, n, outcome.value.corrected);
  }

  lemma {:induction false} RunFollows(w: World, states: seq<ExternalState>, draws: seq<Draw>, n: nat)
    requires n <= |states| == |draws| && WellFormed(states) && Ready(w) && FreshRun(w, states, draws, n)
    ensures var (after, row) := ReconcileFirst(w, states, draws, n); row.Completed? && row.checked == n && Follows(w, after, states, n)
  {
    if n > 0 {
      RunFollows(w, states, draws, n - 1);
      var before := ReconcileFirst(w, states, draws, n - 1).0;
      EntryFollows(w, before, states, n, draws[n - 1]);
    }
  }

  /** The counters of the run are the rows it wrote. */
  lemma {:induction false} RunRecords(w: World, states: seq<ExternalState>, draws: seq<Draw>, n: nat)
    requires n <= |states| == |draws|
    ensures var (after, row) := ReconcileFirst(w, states, draws, n);
            row.Completed? ==>
              && |after.discrepancies| == |w.discrepancies| + row.discrepancies
              && Reviews(after.discrepancies) == Reviews(w.discrepancies) + row.discrepancies - row.corrected
  {
    if n > 0 {
      RunRecords(w, states, draws, n - 1);
      EntryRecords(ReconcileFirst(w, states, draws, n - 1).0, states[n - 1], draws[n - 1]);
    }
  }

  /**
   Reconciling any list of known states, with no other command running and all mapped tables active,
   completes. Every table ends at the status of the last entry for it unless it has active assists;
   tables with assists and tables without entries keep their rows; and the run's discrepancies are
   its corrections plus the rows it left for review.
   */
  lemma ReconcileCompletes(w: World, states: seq<ExternalState>, draws: seq<Draw>)
    requires |states| == |draws| && WellFormed(states) && Ready(w) && FreshRun(w, states, draws, |states|)
    ensures var (after, row) := ReconcileConnection(w, states, draws);
            && row.Completed? && row.checked == |states| && Follows(w, after, states, |states|)
            && |after.discrepancies| == |w.discrepancies| + row.discrepancies
            && row.discrepancies == row.corrected + (Reviews(after.discrepancies) - Reviews(w.discrepancies))
  {
    RunFollows(w, states, draws, |states|);
    RunRecords(w, states, draws, |states|);
  }

  /** An entry without an id, or with an unknown status, is refused by a column check, whatever the floor looks like. */
  lemma BadEntryFails(w: World, e: ExternalState, d: Draw)
    requires Ready(w) && !Good(e)
    ensures ReconcileTableState(w, e, d).1 == Err(RowRefused)
  {
    var mappings := Upserted(w.mappings, e.external);
    assert forall x :: MappedTable(mappings, x) == MappedTable(w.mappings, x);
  }

  /** One turn of the loop completes if and only if its entry is good, and then the floor stays ready. */
  lemma TurnCompletesIff(w: World, e: ExternalState, d: Draw)
    requires Ready(w) && FreshDraw(w.db, d)
    ensures ReconcileTableState(w, e, d).1.Ok? <==> Good(e)
    ensures Good(e) ==> Ready(ReconcileTableState(w, e, d).0)
  {
    if Good(e) { EntryEffect(w, e, d); } else { BadEntryFails(w, e, d); }
  }

  /** What a turn makes of the run so far. */
  lemma TurnOf(w: World, states: seq<ExternalState>, draws: seq<Draw>, n: nat) returns (before: (World, RunRow), entry: (World, Result<Outcome, Failure>))
    requires 0 < n <= |states| == |draws|
    ensures before == ReconcileFirst(w, states, draws, n - 1) && entry == ReconcileTableState(before.0, states[n - 1], draws[n - 1])
    ensures before.1.FailedRun? ==> ReconcileFirst(w, states, draws, n) == before
    ensures before.1.Completed? ==> ReconcileFirst(w, states, draws, n).0 == entry.0 && (ReconcileFirst(w, states, draws, n).1.Completed? <==> entry.1.Ok?)
  {
    before := ReconcileFirst(w, states, draws, n - 1);
    entry := ReconcileTableState(before.0, states[n - 1], draws[n - 1]);
  }

  ghost predicate ReadyRun(run: (World, RunRow), good: bool) {
    (run.1.Completed? <==> good) && (good ==> Ready(run.0))
  }

  predicate GoodUpTo(states: seq<ExternalState>, n: nat)
    requires n <= |states|
  {
    n > 0 ==> Good(states[n - 1]) && GoodUpTo(states, n - 1)
  }

  lemma {:induction false} GoodUpToAll(states: seq<ExternalState>, n: nat)
    requires n <= |states|
    ensures GoodUpTo(states, n) <==> forall i :: 0 <= i < n ==> Good(states[i])
  {
    if n > 0 { GoodUpToAll(states, n - 1); }
  }

  lemma NextTurnReady(w: World, states: seq<ExternalState>, draws: seq<Draw>, n: nat)
    requires 0 < n <= |states| == |draws| && ReadyRun(ReconcileFirst(w, states, draws, n - 1), GoodUpTo(states, n - 1))
    requires FreshDraw(ReconcileFirst(w, states, draws, n - 1).0.db, draws[n - 1])
    ensures ReadyRun(ReconcileFirst(w, states, draws, n), GoodUpTo(states, n - 1) && Good(states[n - 1]))
  {
    var before, entry := TurnOf(w, states, draws, n);
    if before.1.Completed? { TurnCompletesIff(before.0, states[n - 1], draws[n - 1]); }
  }

  lemma {:induction false} CompletesUpToBadEntry(w: World, states: seq<ExternalState>, draws: seq<Draw>, n: nat)
    requires n <= |states| == |draws| && Ready(w) && FreshRun(w, states, draws, n)
    ensures ReadyRun(ReconcileFirst(w, states, draws, n), GoodUpTo(states, n))
  {
    if n > 0 {
      CompletesUpToBadEntry(w, states, draws, n - 1);
      NextTurnReady(w, states, draws, n);
    }
  }

  /** With all mapped tables active and no other command running, a run completes if and only if every entry has an id and a known status. */
  lemma ReconcileCompletesIff(w: World, states: seq<ExternalState>, draws: seq<Draw>)
    requires |states| == |draws| && Ready(w) && FreshRun(w, states, draws, |states|)
    ensures ReconcileConnection(w, states, draws).1.Completed? <==> WellFormed(states)
  {
    CompletesUpToBadEntry(w, states, draws, |states|);
    GoodUpToAll(states, |states|);
  }

  /** So with the reference adapter it completes whatever is configured. */
  lemma ReferenceRunCompletes(w: World, tables: seq<ConfiguredTable>, draws: seq<Draw>)
    requires |FetchedStates(tables)| == |draws| && Ready(w) && FreshRun(w, FetchedStates(tables), draws, |draws|)
    ensures WellFormed(FetchedStates(tables))
    ensures var states := FetchedStates(tables); var (after, row) := ReconcileFetched(w, Ok(states), draws);
            && row.Completed? && row.checked == |states| && Follows(w, after, states, |states|)
            && row.discrepancies == row.corrected + (Reviews(after.discrepancies) - Reviews(w.discrepancies))
  {
    FetchedIsWellFormed(tables);
    ReconcileCompletes(w, FetchedStates(tables), draws);
  }

  // ---------------------------------------------------------------- the second pass

  ghost predicate EntriesAgree(w: World, states: seq<ExternalState>) {
    forall i, j, t :: 0 <= i < |states| && 0 <= j < |states| && For(w, states[i], t) && For(w, states[j], t) ==> states[i].status == states[j].status
  }

  lemma {:induction false} WantedIsAny(w: World, states: seq<ExternalState>, n: nat, i: nat, t: Id)
    requires i < n <= |states| && WellFormed(states) && t in w.db.occupancy && !HasActiveAssists(w.db, t)
    requires EntriesAgree(w, states) && For(w, states[i], t)
    ensures Wanted(w, states, n, t) == states[i].status.status
  {
    if !For(w, states[n - 1], t) { WantedIsAny(w, states, n - 1, i, t); }
  }

  /** Every entry already holds of every table it may correct. */
  ghost predicate Settled(w: World, states: seq<ExternalState>) {
    forall i, t :: 0 <= i < |states| && For(w, states[i], t) && t in w.db.occupancy && !HasActiveAssists(w.db, t) ==>
                     states[i].status == Known(w.db.occupancy[t].status)
  }

  /** The floor and the mapped tables are those of `w`. */
  ghost predicate SameFloor(w: World, after: World) {
    after.db == w.db && forall x :: MappedTable(after.mappings, x) == MappedTable(w.mappings, x)
  }

  /** An entry that already holds is at most left for review. */
  lemma SettledEntry(w: World, before: World, states: seq<ExternalState>, n: nat, d: Draw)
    requires n < |states| && WellFormed(states) && Ready(w) && Settled(w, states) && SameFloor(w, before)
    ensures ReconcileTableState(before, states[n], d).1.Ok? && !ReconcileTableState(before, states[n], d).1.value.corrected
    ensures SameFloor(w, ReconcileTableState(before, states[n], d).0)
  {
    var e := states[n];
    assert Good(e);
    assert forall x :: MappedTable(Upserted(before.mappings, e.external), x) == MappedTable(w.mappings, x);
    if MappedTable(w.mappings, e.external).Some? { assert For(w, e, MappedTable(w.mappings, e.external).value); }
  }

  ghost predicate SettledRun(w: World, run: (World, RunRow)) {
    run.1.Completed? && run.1.corrected == 0 && SameFloor(w, run.0)
  }

  lemma SettledTurn(w: World, states: seq<ExternalState>, draws: seq<Draw>, n: nat)
    requires 0 < n <= |states| == |draws| && WellFormed(states) && Ready(w) && Settled(w, states)
    requires SettledRun(w, ReconcileFirst(w, states, draws, n - 1))
    ensures SettledRun(w, ReconcileFirst(w, states, draws, n))
  {
    SettledEntry(w, ReconcileFirst(w, states, draws, n - 1).0, states, n - 1, draws[n - 1]);
  }

  lemma {:induction false} SettledStays(w: World, states: seq<ExternalState>, draws: seq<Draw>, n: nat)
    requires n <= |states| == |draws| && WellFormed(states) && Ready(w) && Settled(w, states)
    ensures SettledRun(w, ReconcileFirst(w, states, draws, n))
  {
    if n > 0 {
      SettledStays(w, states, draws, n - 1);
      SettledTurn(w, states, draws, n);
    }
  }

  /** A second pass over the same states corrects nothing and leaves the floor alone, whatever it draws, when entries agree per table. */
  lemma SecondPassCorrectsNothing(w: World, states: seq<ExternalState>, draws: seq<Draw>, again: seq<Draw>)
    requires |states| == |draws| == |again| && WellFormed(states) && Ready(w) && FreshRun(w, states, draws, |states|) && EntriesAgree(w, states)
    ensures var first := ReconcileConnection(w, states, draws).0; var (second, row) := ReconcileConnection(first, states, again);
            row.Completed? && row.corrected == 0 && second.db == first.db
  {
    RunFollows(w, states, draws, |states|);
    var first := ReconcileConnection(w, states, draws).0;
    forall i, t | 0 <= i < |states| && For(first, states[i], t) && t in first.db.occupancy && !HasActiveAssists(first.db, t)
      ensures states[i].status == Known(first.db.occupancy[t].status) {
      assert For(w, states[i], t);
      WantedIsAny(w, states, |states|, i, t);
    }
    SettledStays(first, states, again, |states|);
  }

  // ---------------------------------------------------------------- webhooks

  /** `applyWebhookFact`: unlike a run it does not look at assists and does not record a discrepancy. */
  ghost function ApplyWebhookFact(w: World, e: ExternalState, partySize: Option<int>, d: Draw): (World, Result<(), Failure>) {
    if e.external == "" then (w, Err(RowRefused))
    else
      var w1 := w.(mappings := Upserted(w.mappings, e.external));
      match MappedTable(w1.mappings, e.external)
      case None => (w1, Err(NotMapped))
      case Some(t) =>
        if t !in w1.db.occupancy then (w1, Err(MissingTable))
        else if e.status == Known(w1.db.occupancy[t].status) then (w1, Ok(()))
        else if e.status.Unknown? then (w1, Err(ValidationFailure))
        else
          var (db1, error) := ApplyTableState(w1.db, t, w1.db.occupancy[t].version, e.status.status, partySize, d);
          (w1.(db := db1), if error.Some? then Err(CommandFailure(error.value)) else Ok(()))
  }

  /** A fact about a mapped, active table always lands, and touches no other table; any other fact changes no table. */
  lemma WebhookLands(w: World, e: ExternalState, partySize: Option<int>, d: Draw)
    requires Ready(w) && e.external != "" && e.status.Known? && FreshDraw(w.db, d) && (partySize.Some? ==> partySize.value > 0)
    ensures var (after, result) := ApplyWebhookFact(w, e, partySize, d);
            && Ready(after)
            && (result.Ok? <==> exists t :: For(w, e, t))
            && after.db.occupancy.Keys == w.db.occupancy.Keys
            && (forall t :: t in w.db.occupancy ==>
                  if For(w, e, t) then after.db.occupancy[t].status == e.status.status else after.db.occupancy[t] == w.db.occupancy[t])
  {
    assert forall x :: MappedTable(Upserted(w.mappings, e.external), x) == MappedTable(w.mappings, x);
    match MappedTable(w.mappings, e.external)
    case None =>
    case Some(t) =>
      assert For(w, e, t) && forall u :: For(w, e, u) <==> u == t;
      if w.db.occupancy[t].status != e.status.status { CorrectionSucceeds(w.db, t, e.status.status, partySize, d); }
  }
}
