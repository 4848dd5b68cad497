/** When a reconciliation leaves an entry for review and when it corrects the floor, in terms of the event log. */
module ReconcileReview {
  import opened Common
  import opened Operations
  import opened TableHistory
  import opened AssistHistory
  import opened R = Reconcile
  import G = CommandGuards

  /** The log says that the request was made for this table. */
  ghost predicate MadeFor(events: seq<Event>, a: Id, t: Id) {
    exists i :: 0 <= i < |events| && events[i].entity == AssistEntity(a) && events[i].kind == AssistRequested && events[i].data == AssistData(t, Pending)
  }

  /** The log says that the request was resolved or cancelled. */
  ghost predicate EndedInLog(events: seq<Event>, a: Id) {
    exists i :: 0 <= i < |events| && events[i].entity == AssistEntity(a) && (events[i].kind == AssistResolved || events[i].kind == AssistCancelled)
  }

  /** A request of the table was made and has been neither resolved nor cancelled. */
  ghost predicate AttendedTo(events: seq<Event>, t: Id) {
    exists a :: MadeFor(events, a, t) && !EndedInLog(events, a)
  }

  /** What the log says of a request is what its row says. */
  ghost predicate LogTells(db: Db) {
    && (forall a, t :: MadeFor(db.events, a, t) <==> a in db.assists && db.assists[a].table == t)
    && (forall a :: EndedInLog(db.events, a) <==> a in db.assists && (db.assists[a].status == Resolved || db.assists[a].status == Cancelled))
  }

  lemma MadeForAppend(events: seq<Event>, e: Event, a: Id, t: Id)
    ensures MadeFor(events + [e], a, t) <==> MadeFor(events, a, t) || (e.entity == AssistEntity(a) && e.kind == AssistRequested && e.data == AssistData(t, Pending))
  {
    var all := events + [e];
    if MadeFor(events, a, t) {
      var i :| 0 <= i < |events| && events[i].entity == AssistEntity(a) && events[i].kind == AssistRequested && events[i].data == AssistData(t, Pending);
      assert all[i] == events[i];
    }
    assert all[|events|] == e;
  }

  lemma EndedAppend(events: seq<Event>, e: Event, a: Id)
    ensures EndedInLog(events + [e], a) <==> EndedInLog(events, a) || (e.entity == AssistEntity(a) && (e.kind == AssistResolved || e.kind == AssistCancelled))
  {
    var all := events + [e];
    if EndedInLog(events, a) {
      var i :| 0 <= i < |events| && events[i].entity == AssistEntity(a) && (events[i].kind == AssistResolved || events[i].kind == AssistCancelled);
      assert all[i] == events[i];
    }
    assert all[|events|] == e;
  }

  lemma ChangeTells(change: Change, db: Db, after: Db)
    requires LogTells(db) && Explains(change, db, after)
    ensures LogTells(after)
  {
    if after.events != db.events {
      var e: Event :| after.events == db.events + [e]
                      && if change.Untouched? then e.entity.TableEntity? else Describes(e, change.a, after.assists[change.a]);
      forall a, t ensures MadeFor(after.events, a, t) <==> a in after.assists && after.assists[a].table == t { MadeForAppend(db.events, e, a, t); }
      forall a ensures EndedInLog(after.events, a) <==> a in after.assists && (after.assists[a].status == Resolved || after.assists[a].status == Cancelled) {
        EndedAppend(db.events, e, a);
      }
    }
  }

  lemma {:induction false} EveryLogTells(steps: seq<Step>)
    ensures LogTells(Run(EMPTY, steps))
  {
    if steps != [] {
      var db, step := Run(EMPTY, steps[..|steps| - 1]), steps[|steps| - 1];
      EveryLogTells(steps[..|steps| - 1]);
      if step.Submit? && RunCommand(db, step.request).1.Done? {
        CommandExplained(db, step.request);
        ChangeTells(ChangeOf(db, step.request), db, Apply(db, step));
      }
    }
  }

  lemma ActiveInLog(steps: seq<Step>, t: Id)
    ensures HasActiveAssists(Run(EMPTY, steps), t) <==> AttendedTo(Run(EMPTY, steps).events, t)
  {
    EveryLogTells(steps);
    var db := Run(EMPTY, steps);
    if HasActiveAssists(db, t) {
      var a :| a in db.assists && db.assists[a].table == t && (db.assists[a].status == Pending || db.assists[a].status == Acknowledged);
      assert MadeFor(db.events, a, t) && !EndedInLog(db.events, a);
    }
  }

  /** The external id stands for this table: it is on record, with the table, as mapped. */
  predicate StandsFor(mappings: map<string, Mapping>, external: string, t: Id) {
    external in mappings && mappings[external] == Mapping(Some(t), Mapped)
  }

  /** The entry names a mapped table of the floor and gives it another status than the table has. */
  ghost predicate Differs(w: World, e: ExternalState, t: Id, next: TableStatus) {
    && e == ExternalState(e.external, Known(next)) && e.external != ""
    && StandsFor(w.mappings, e.external, t) && Active(w.db, t) && w.db.occupancy[t].status != next
  }

  /**
   An entry that differs from its table is left for review, with the floor as it was, if and only if some
   request of the table has been made and neither resolved nor cancelled. Each outcome writes its own row.
   */
  lemma ReviewedIff(steps: seq<Step>, w: World, e: ExternalState, d: Draw, t: Id, next: TableStatus)
    requires w.db == Run(EMPTY, steps) && Differs(w, e, t, next) && FreshDraw(w.db, d)
    ensures var (after, outcome) := ReconcileTableState(w, e, d); var current := w.db.occupancy[t].status;
            if AttendedTo(w.db.events, t)
            then outcome == Ok(Outcome(true, false)) && after.db == w.db
                 && after.discrepancies == w.discrepancies + [Discrepancy(e.external, Some(t), AmbiguousConflict, Some(current), next, ReviewRequired)]
            else outcome == Ok(Outcome(true, true)) && R.Moved(w.db, after.db, t, next)
                 && after.discrepancies == w.discrepancies + [Discrepancy(e.external, Some(t), OccupancyMismatch, Some(current), next, AutoCorrected)]
  {
    ActiveInLog(steps, t);
    EveryRunAgrees(steps);
    var mappings := Upserted(w.mappings, e.external);
    assert MappedTable(mappings, e.external) == Some(t);
    if !HasActiveAssists(w.db, t) { CorrectionSucceeds(w.db, t, next, None, d); }
  }

  /** An entry for an id that is new, unmapped or ignored is left for review, whatever it says; one that agrees with its table writes nothing. */
  lemma UnmappedIsReviewed(w: World, e: ExternalState, d: Draw)
    requires Good(e)
    ensures var (after, outcome) := ReconcileTableState(w, e, d);
            && ((forall t: Id :: !StandsFor(w.mappings, e.external, t)) ==>
                  outcome == Ok(Outcome(true, false)) && after.db == w.db
                  && after.discrepancies == w.discrepancies + [Discrepancy(e.external, None, UnmappedTable, None, e.status.status, ReviewRequired)])
            && (forall t: Id :: StandsFor(w.mappings, e.external, t) && t in w.db.occupancy && w.db.occupancy[t].status == e.status.status ==>
                  outcome == Ok(Outcome(false, false)) && after.db == w.db && after.discrepancies == w.discrepancies)
            && (forall x, t: Id :: StandsFor(after.mappings, x, t) <==> StandsFor(w.mappings, x, t))
  {
    assert forall t: Id :: StandsFor(w.mappings, e.external, t) <==> MappedTable(w.mappings, e.external) == Some(t);
    assert forall x, t: Id :: StandsFor(Upserted(w.mappings, e.external), x, t) <==> StandsFor(w.mappings, x, t);
  }

  /**
   A correcting command that finds its table already there is no error and changes nothing, however old the
   version it was given; one that finds another version, or no live table, is an error.
   */
  lemma AlreadyThereIsNoError(db: Db, t: Id, expected: int, next: TableStatus, d: Draw)
    requires FreshDraw(db, d)
    ensures Active(db, t) && db.occupancy[t].status == next ==> ApplyTableState(db, t, expected, next, None, d) == (db, None)
    ensures Active(db, t) && db.occupancy[t].status != next && db.occupancy[t].version != expected ==>
              ApplyTableState(db, t, expected, next, None, d) == (db, Some(VersionConflict))
    ensures !Active(db, t) ==> ApplyTableState(db, t, expected, next, None, d) == (db, Some(NotFound))
  {
    var r := CorrectingRequest(t, expected, next, None, d);
    if next == Occupied { G.OccupyExecutedIff(db, r); }
  }

  /** Whatever comes of it, an entry or a webhook with an id puts a new id on record as unmapped and leaves the others as they were. */
  lemma SeenIdsAreRecorded(w: World, e: ExternalState, partySize: Option<int>, d: Draw)
    requires e.external != ""
    ensures var recorded := if e.external in w.mappings then w.mappings else w.mappings[e.external := Mapping(None, Unmapped)];
            ReconcileTableState(w, e, d).0.mappings == recorded && ApplyWebhookFact(w, e, partySize, d).0.mappings == recorded
  {
  }

  /** Without an id both are refused and nothing changes. */
  lemma NamelessIsRefused(w: World, e: ExternalState, partySize: Option<int>, d: Draw)
    requires e.external == ""
    ensures ReconcileTableState(w, e, d) == (w, Err(RowRefused)) && ApplyWebhookFact(w, e, partySize, d) == (w, Err(RowRefused))
  {
  }

  /** A table that has left the floor cannot be corrected: the entry fails with the command, and the row that says so stays. */
  lemma DeadTableFails(w: World, e: ExternalState, d: Draw, t: Id, next: TableStatus)
    requires e == ExternalState(e.external, Known(next)) && e.external != "" && StandsFor(w.mappings, e.external, t)
    requires t in w.db.occupancy && t !in w.db.live && w.db.occupancy[t].status != next && !HasActiveAssists(w.db, t) && FreshDraw(w.db, d)
    ensures var (after, outcome) := ReconcileTableState(w, e, d);
            outcome == Err(CommandFailure(NotFound)) && after.db == w.db && |after.discrepancies| == |w.discrepancies| + 1
    ensures ApplyWebhookFact(w, e, None, d).1 == Err(CommandFailure(NotFound)) && ApplyWebhookFact(w, e, None, d).0.db == w.db
  {
    AlreadyThereIsNoError(w.db, t, w.db.occupancy[t].version, next, d);
    assert MappedTable(Upserted(w.mappings, e.external), e.external) == Some(t);
  }

  /** What a correcting command does to the sessions: one opens with the given party, or the table's open one ends, when the transaction began. */
  lemma CorrectionSession(db: Db, t: Id, next: TableStatus, partySize: Option<int>, d: Draw)
    requires TablesAgree(db) && Active(db, t) && db.occupancy[t].status != next && FreshDraw(db, d) && (partySize.Some? ==> partySize.value > 0)
    ensures var after := ApplyTableState(db, t, db.occupancy[t].version, next, partySize, d).0;
            if next == Occupied then after.sessions == db.sessions[d.env.rowId := Session(t, partySize, d.env.began, None)]
            else db.occupancy[t].session.Some? && IsOpen(db, db.occupancy[t].session.value)
                 && var s := db.occupancy[t].session.value; after.sessions == db.sessions[s := db.sessions[s].(endedAt := Some(d.env.began))]
  {
    CorrectionSucceeds(db, t, next, partySize, d);
    var r := CorrectingRequest(t, db.occupancy[t].version, next, partySize, d);
    if next == Occupied { OccupyEffect(db, r); } else { ClearEffect(db, r); }
  }

  /** A webhook that seats a party opens a session of its size; one for a table nobody mapped, or with an unknown status, is an error that changes no row. */
  lemma WebhookEffects(w: World, e: ExternalState, partySize: Option<int>, d: Draw, t: Id)
    requires Ready(w) && e.external != "" && FreshDraw(w.db, d) && (partySize.Some? ==> partySize.value > 0)
    ensures var (after, result) := ApplyWebhookFact(w, e, partySize, d);
            && (StandsFor(w.mappings, e.external, t) && w.db.occupancy[t].status == Available && e.status == Known(Occupied) ==>
                  result == Ok(()) && after.db.sessions == w.db.sessions[d.env.rowId := Session(t, partySize, d.env.began, None)])
            && (StandsFor(w.mappings, e.external, t) && e.status.Unknown? ==> result == Err(ValidationFailure) && after.db == w.db)
            && ((forall u: Id :: !StandsFor(w.mappings, e.external, u)) ==> result == Err(NotMapped) && after.db == w.db)
            && after.discrepancies == w.discrepancies
  {
    assert forall u: Id :: StandsFor(w.mappings, e.external, u) <==> MappedTable(w.mappings, e.external) == Some(u);
    assert MappedTable(Upserted(w.mappings, e.external), e.external) == MappedTable(w.mappings, e.external);
    if MappedTable(w.mappings, e.external) == Some(t) && w.db.occupancy[t].status == Available { CorrectionSession(w.db, t, Occupied, partySize, d); }
  }

  /**
   A whole run over known states: a table with a request that the log shows neither resolved nor cancelled
   keeps its row; any other with an entry ends at the status of the last one.
   */
  lemma RunFollowsTheLog(steps: seq<Step>, w: World, states: seq<ExternalState>, draws: seq<Draw>, t: Id, n: nat)
    requires w.db == Run(EMPTY, steps) && Ready(w) && WellFormed(states) && |states| == |draws| && FreshRun(w, states, draws, |states|)
    requires t in w.db.occupancy && n < |states| && For(w, states[n], t) && forall i :: n < i < |states| ==> !For(w, states[i], t)
    ensures var after := ReconcileConnection(w, states, draws).0.db;
            && t in after.occupancy
            && if AttendedTo(w.db.events, t) then after.occupancy[t] == w.db.occupancy[t] else after.occupancy[t].status == states[n].status.status
  {
    ActiveInLog(steps, t);
    ReconcileCompletes(w, states, draws);
    if !HasActiveAssists(w.db, t) { LastIsWanted(w, states, |states|, n, t); }
  }

  lemma {:induction false} LastIsWanted(w: World, states: seq<ExternalState>, m: nat, n: nat, t: Id)
    requires n < m <= |states| && WellFormed(states) && t in w.db.occupancy && !HasActiveAssists(w.db, t)
    requires For(w, states[n], t) && forall i :: n < i < m ==> !For(w, states[i], t)
    ensures Wanted(w, states, m, t) == states[n].status.status
  {
    if n < m - 1 { LastIsWanted(w, states, m - 1, n, t); }
  }

  /** A run that comes to a bad entry fails there: it has done, and reports, what the entries before it came to. */
  lemma {:induction false} FailsAtBadEntry(w: World, states: seq<ExternalState>, draws: seq<Draw>, bad: nat, n: nat)
    requires bad < n <= |states| == |draws| && Ready(w) && FreshRun(w, states, draws, bad)
    requires (forall i :: 0 <= i < bad ==> Good(states[i])) && !Good(states[bad])
    ensures var (before, row) := ReconcileFirst(w, states, draws, bad); var (after, failed) := ReconcileFirst(w, states, draws, n);
            && row.Completed? && row.checked == bad && after.db == before.db && after.discrepancies == before.discrepancies
            && failed == FailedRun(|states|, row.discrepancies, row.corrected, RowRefused)
  {
    if n == bad + 1 {
      CompletesUpToBadEntry(w, states, draws, bad);
      GoodUpToAll(states, bad);
      CountsEntries(w, states, draws, bad);
      BadEntryWritesNothing(ReconcileFirst(w, states, draws, bad).0, states[bad], draws[bad]);
    } else {
      FailsAtBadEntry(w, states, draws, bad, n - 1);
    }
  }

  lemma BadEntryWritesNothing(w: World, e: ExternalState, d: Draw)
    requires Ready(w) && !Good(e)
    ensures var (after, outcome) := ReconcileTableState(w, e, d);
            outcome == Err(RowRefused) && after.db == w.db && after.discrepancies == w.discrepancies
  {
    BadEntryFails(w, e, d);
  }

  lemma {:induction false} CountsEntries(w: World, states: seq<ExternalState>, draws: seq<Draw>, n: nat)
    requires n <= |states| == |draws|
    ensures ReconcileFirst(w, states, draws, n).1.Completed? ==> ReconcileFirst(w, states, draws, n).1.checked == n
  {
    if n > 0 { CountsEntries(w, states, draws, n - 1); }
  }

  // ---------------------------------------------------------------- the adapter's texts

  function TextOf(status: TableStatus): string {
    match status case Available => "available" case Occupied => "occupied"
  }

  lemma StatusTexts(text: string, status: TableStatus)
    ensures R.StatusOf(text) == Known(status) <==> text == TextOf(status)
  {
    assert TextOf(Available)[0] != TextOf(Occupied)[0];
  }

  predicate ConfiguredAs(table: ConfiguredTable, external: string, status: TableStatus) {
    TrimSpace(table.externalTableId) == external && table.status == TextOf(status)
  }

  ghost predicate Configured(tables: seq<ConfiguredTable>, external: string, status: TableStatus) {
    exists i :: 0 <= i < |tables| && ConfiguredAs(tables[i], external, status)
  }

  lemma ConfiguredLast(tables: seq<ConfiguredTable>, external: string, status: TableStatus)
    requires tables != []
    ensures Configured(tables, external, status) <==>
            Configured(tables[..|tables| - 1], external, status) || ConfiguredAs(tables[|tables| - 1], external, status)
  {
    var rest := tables[..|tables| - 1];
    assert forall i :: 0 <= i < |rest| ==> rest[i] == tables[i];
  }

  /** The adapter hands on exactly the configured tables that have an id and one of the two status texts, with that status. */
  lemma {:induction false} FetchedIff(tables: seq<ConfiguredTable>, external: string, status: TableStatus)
    ensures ExternalState(external, Known(status)) in FetchedStates(tables) <==> external != "" && Configured(tables, external, status)
  {
    if tables != [] {
      FetchedIff(tables[..|tables| - 1], external, status);
      ConfiguredLast(tables, external, status);
      StatusTexts(tables[|tables| - 1].status, status);
    }
  }
}
