/** Idempotent commands: a run with retries equals the run that keeps only the first successes. */
module Retries {
  import opened Common
  import opened Operations
  import TableHistory

  /** The response to step `i` of a run from the empty store. */
  ghost function ResponseAt(steps: seq<Step>, i: nat): Response
    requires i < |steps| && steps[i].Submit?
  {
    RunCommand(Run(EMPTY, steps[..i]), steps[i].request).1
  }

  ghost predicate SucceedsAt(steps: seq<Step>, i: nat)
    requires i < |steps|
  {
    steps[i].Submit? && !ResponseAt(steps, i).Failed?
  }

  predicate SameCommandId(a: Step, b: Step) {
    a.Submit? && b.Submit? && Keyed(a.request) && Keyed(b.request) && a.request.id == b.request.id
  }

  /** Step `i` succeeds and no earlier success carries its command id. */
  ghost predicate FirstSuccess(steps: seq<Step>, i: nat)
    requires i < |steps|
  {
    SucceedsAt(steps, i) && forall j :: 0 <= j < i && SameCommandId(steps[j], steps[i]) ==> !SucceedsAt(steps, j)
  }

  /** The run without its failures and retries; layout edits stay. */
  ghost function WithoutRetries(steps: seq<Step>): seq<Step> {
    if steps == [] then []
    else
      var last := |steps| - 1;
      WithoutRetries(steps[..last]) + if steps[last].Submit? && !FirstSuccess(steps, last) then [] else [steps[last]]
  }

  lemma PrefixSuccess(steps: seq<Step>, n: nat, i: nat)
    requires i < n <= |steps|
    ensures SucceedsAt(steps[..n], i) == SucceedsAt(steps, i)
    ensures steps[i].Submit? ==> ResponseAt(steps[..n], i) == ResponseAt(steps, i)
  {
    assert steps[..n][..i] == steps[..i];
  }

  ghost predicate SucceedsAs(steps: seq<Step>, j: nat, id: Id)
    requires j < |steps|
  {
    SucceedsAt(steps, j) && Keyed(steps[j].request) && steps[j].request.id == id
  }

  ghost predicate SucceededBefore(steps: seq<Step>, n: nat, id: Id)
    requires n <= |steps|
  {
    exists j :: 0 <= j < n && SucceedsAs(steps, j, id)
  }

  lemma PrefixSucceeded(steps: seq<Step>, n: nat, id: Id)
    requires n <= |steps|
    ensures SucceededBefore(steps[..n], n, id) == SucceededBefore(steps, n, id)
  {
    forall j | 0 <= j < n ensures SucceedsAs(steps[..n], j, id) == SucceedsAs(steps, j, id) {
      PrefixSuccess(steps, n, j);
    }
  }

  /** A record exists for an id exactly when some earlier command with that id succeeded. */
  lemma {:induction false} RecordedWhenSucceeded(steps: seq<Step>, id: Id)
    ensures id in Run(EMPTY, steps).idempotency <==> SucceededBefore(steps, |steps|, id)
  {
    if steps != [] {
      var last := |steps| - 1;
      RecordedWhenSucceeded(steps[..last], id);
      PrefixSucceeded(steps, last, id);
      RecordedByLastStep(Run(EMPTY, steps[..last]), steps[last], id);
      assert SucceededBefore(steps, |steps|, id) <==> SucceededBefore(steps, last, id) || SucceedsAs(steps, last, id);
    }
  }

  lemma RecordedByLastStep(db: Db, step: Step, id: Id)
    ensures id in Apply(db, step).idempotency <==>
            id in db.idempotency
            || (step.Submit? && !RunCommand(db, step.request).1.Failed? && Keyed(step.request) && step.request.id == id)
    ensures id in db.idempotency ==> Apply(db, step).idempotency[id] == db.idempotency[id]
    ensures step.Submit? && RunCommand(db, step.request).1.Done? && Keyed(step.request) ==>
              var r := step.request; var response := RunCommand(db, r).1;
              Apply(db, step).idempotency[r.id] == Idempotency(r.commandType, r.payloadHash, response.status, response.body)
  {
    if step.Submit? && RunCommand(db, step.request).1.Done? {
      ExecuteKeepsLog(db, step.request);
    }
  }

  /** The first success of an id is the step whose response is a fresh `Done`. */
  lemma FirstSuccessIsDone(steps: seq<Step>, i: nat)
    requires i < |steps| && steps[i].Submit?
    ensures FirstSuccess(steps, i) <==> ResponseAt(steps, i).Done?
  {
    var r := steps[i].request;
    RecordedWhenSucceeded(steps[..i], r.id);
    PrefixSucceeded(steps, i, r.id);
    if Keyed(r) && SucceededBefore(steps, i, r.id) {
      var j :| 0 <= j < i && SucceedsAs(steps, j, r.id);
      assert SameCommandId(steps[j], steps[i]) && SucceedsAt(steps, j);
    } else {
      forall j | 0 <= j < i && SameCommandId(steps[j], steps[i]) ensures !SucceedsAt(steps, j) {
        assert !SucceedsAs(steps, j, r.id);
      }
    }
  }

  /** Replays and failures leave every row as it was. */
  lemma OnlyDoneChangesRows(db: Db, r: Request)
    ensures !RunCommand(db, r).1.Done? ==> RunCommand(db, r).0 == db
  {
  }

  /**
   Any run with retries ends in the same rows, event log and outbox as the run that keeps only
   the first success of each command id.
   */
  lemma {:induction false} RetriesHaveNoEffect(steps: seq<Step>)
    ensures Run(EMPTY, WithoutRetries(steps)) == Run(EMPTY, steps)
  {
    if steps != [] {
      var last := |steps| - 1;
      var kept := WithoutRetries(steps[..last]);
      RetriesHaveNoEffect(steps[..last]);
      if steps[last].Submit? && !FirstSuccess(steps, last) {
        FirstSuccessIsDone(steps, last);
        OnlyDoneChangesRows(Run(EMPTY, steps[..last]), steps[last].request);
        assert WithoutRetries(steps) == kept;
      } else {
        assert WithoutRetries(steps) == kept + [steps[last]];
        assert (kept + [steps[last]])[..|kept|] == kept;
      }
    }
  }

  lemma {:induction false} RecordSurvives(steps: seq<Step>, n: nat, id: Id)
    requires n <= |steps| && id in Run(EMPTY, steps[..n]).idempotency
    ensures id in Run(EMPTY, steps).idempotency
    ensures Run(EMPTY, steps).idempotency[id] == Run(EMPTY, steps[..n]).idempotency[id]
  {
    if n == |steps| {
      assert steps[..n] == steps;
    } else {
      var last := |steps| - 1;
      assert steps[..last][..n] == steps[..n];
      RecordSurvives(steps[..last], n, id);
      RecordedByLastStep(Run(EMPTY, steps[..last]), steps[last], id);
    }
  }

  /**
   Every later attempt with the id of a first success gets that status and body back when type and
   payload hash match, and a conflict when they do not; either way no row changes.
   */
  lemma RetryAnswer(steps: seq<Step>, first: nat, i: nat)
    requires first < i < |steps| && SameCommandId(steps[first], steps[i]) && FirstSuccess(steps, first)
    requires AdmittedAction(steps[i].request) && CapabilityResolved(steps[i].request)
    ensures var a, b := steps[first].request, steps[i].request;
            ResponseAt(steps, i) ==
            if a.commandType == b.commandType && a.payloadHash == b.payloadHash
            then Replayed(ResponseAt(steps, first).status, ResponseAt(steps, first).body)
            else Failed(IdempotencyConflict)
    ensures Run(EMPTY, steps[..i + 1]) == Run(EMPTY, steps[..i])
  {
    FirstSuccessIsDone(steps, first);
    var id := steps[first].request.id;
    assert steps[..first + 1][..first] == steps[..first];
    RecordedByLastStep(Run(EMPTY, steps[..first]), steps[first], id);
    assert steps[..i][..first + 1] == steps[..first + 1];
    RecordSurvives(steps[..i], first + 1, id);
    assert steps[..i + 1][..i] == steps[..i];
  }

  // ---------------------------------------------------------------- what a replay is about

  /** The table that an occupy or clear command names. */
  function NamedTable(command: Command): Option<Id> {
    match command
    case OccupyTable(t, _, _) => Some(t)
    case ClearTable(t, _) => Some(t)
    case _ => None
  }

  lemma DoneIsAboutItsTable(db: Db, r: Request)
    requires RunCommand(db, r).1.Done? && NamedTable(r.command).Some?
    ensures RunCommand(db, r).1.value.TableValue? && RunCommand(db, r).1.value.table == NamedTable(r.command).value
    ensures RunCommand(db, r).1.body == BodyOf(EncoderOf(r), RunCommand(db, r).1.value)
  {
    if r.command.OccupyTable? { TableHistory.OccupyEffect(db, r); } else { TableHistory.ClearEffect(db, r); }
  }

  /** A replayed table command answers for the first command's table, and so for its own if and only if they name the same one. */
  lemma ReplayIsForItsTableIff(steps: seq<Step>, first: nat, i: nat)
    requires first < i < |steps| && SameCommandId(steps[first], steps[i]) && FirstSuccess(steps, first)
    requires NamedTable(steps[first].request.command).Some? && NamedTable(steps[i].request.command).Some?
    requires steps[first].request.encoder.Encoder? && Matches(Idempotency(steps[first].request.commandType, steps[first].request.payloadHash, 0, EmptyObject), steps[i].request)
    ensures var answer := ResponseAt(steps, i);
            && answer.Replayed? && answer.body.Encoded? && answer.body.value.TableValue?
            && Some(answer.body.value.table) == NamedTable(steps[first].request.command)
            && (Some(answer.body.value.table) == NamedTable(steps[i].request.command)
                <==> NamedTable(steps[i].request.command) == NamedTable(steps[first].request.command))
  {
    RetryAnswer(steps, first, i);
    FirstSuccessIsDone(steps, first);
    DoneIsAboutItsTable(Run(EMPTY, steps[..first]), steps[first].request);
  }

  function Occupy(table: Id, row: Id): Request {
    Request(1, "table.occupy", 9, OccupyTable(table, 1, None), Encoder(201), Env(0, 0, row, row))
  }

  /** Table 7 is occupied with command 1; the same id, type and hash for table 8 answers for table 7, and table 8 stays available. */
  lemma ReplayForAnotherTable()
    ensures var before := [AddTable(7)] + [AddTable(8)] + [Submit(Occupy(7, 20))];
            var (db, answer) := RunCommand(Run(EMPTY, before), Occupy(8, 21));
            && answer == Replayed(201, Encoded(TableValue(7, Occupancy(Occupied, Some(20), 2), 20)))
            && 8 in db.occupancy && db.occupancy[8] == Occupancy(Available, None, 1)
  {
    var s1, s2 := [AddTable(7)], [AddTable(7)] + [AddTable(8)];
    RunAppend(EMPTY, [], AddTable(7));
    assert [] + [AddTable(7)] == s1;
    RunAppend(EMPTY, s1, AddTable(8));
    RunAppend(EMPTY, s2, Submit(Occupy(7, 20)));
  }

  // ---------------------------------------------------------------- the outbox of a run

  predicate DistinctEventIds(events: seq<Event>) {
    forall i, j :: 0 <= i < j < |events| ==> events[i].id != events[j].id
  }

  function FanOut(events: seq<Event>): seq<OutboxRow> {
    if events == [] then []
    else
      var e := events[|events| - 1];
      FanOut(events[..|events| - 1])
      + OutboxRows(e.id, if e.entity.TableEntity? then TABLE_TOPIC else ASSIST_TOPIC, OperationDestinations())
  }

  lemma CommitFansOut(db: Db, r: Request)
    requires DistinctEventIds(db.events) && db.outbox == FanOut(db.events) && Commit(db, r).Ok?
    ensures DistinctEventIds(Commit(db, r).value.db.events)
    ensures Commit(db, r).value.db.outbox == FanOut(Commit(db, r).value.db.events)
  {
    var x := Execute(db, r).value;
    ExecuteKeepsLog(db, r);
    if x.announce {
      assert (db.events + [EventFor(r, x.value)])[..|db.events|] == db.events;
    }
  }

  /** The outbox is the event log fanned out: one row per event and destination, in log order, ids distinct. */
  lemma {:induction false} EveryRunFansOut(steps: seq<Step>)
    ensures DistinctEventIds(Run(EMPTY, steps).events)
    ensures Run(EMPTY, steps).outbox == FanOut(Run(EMPTY, steps).events)
  {
    if steps != [] {
      var before := Run(EMPTY, steps[..|steps| - 1]);
      EveryRunFansOut(steps[..|steps| - 1]);
      var step := steps[|steps| - 1];
      if step.Submit? && RunCommand(before, step.request).1.Done? {
        CommitFansOut(before, step.request);
      }
    }
  }
}
