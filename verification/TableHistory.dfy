/** Table occupancy, its sessions and its event log agree in every reachable state. */
module TableHistory {
  import opened Common
  import opened Operations

  /** One event applied to a table: occupied and cleared must alternate, versions must be contiguous. */
  function Advance(o: Occupancy, e: Event): Option<Occupancy> {
    if !e.data.TableData? || e.version != o.version + 1 then None
    else match e.kind
    case TableOccupied =>
      if o.status == Available && e.data.status == Occupied then Some(Occupancy(Occupied, Some(e.data.session), e.version)) else None
    case TableCleared =>
      if o.status == Occupied && o.session == Some(e.data.session) && e.data.status == Available
      then Some(Occupancy(Available, None, e.version)) else None
    case _ => None
  }

  /** The occupancy that the log alone gives a table; `None` when its events do not form a history. */
  function Replay(events: seq<Event>, table: Id): Option<Occupancy> {
    if events == [] then Some(Occupancy(Available, None, 1))
    else
      var e := events[|events| - 1];
      match Replay(events[..|events| - 1], table)
      case None => None
      case Some(o) => if e.entity == TableEntity(table) then Advance(o, e) else Some(o)
  }

  ghost predicate SessionsAgree(db: Db, t: Id)
    requires t in db.occupancy
  {
    var o := db.occupancy[t];
    && (o.status == Occupied <==> o.session.Some?)
    && (o.session.Some? ==> IsOpen(db, o.session.value) && db.sessions[o.session.value].table == t)
    && (forall s :: IsOpen(db, s) && db.sessions[s].table == t ==> o.session == Some(s))
  }

  /** Status, session and log of every table agree; a table without a row has no sessions and no events. */
  ghost predicate TablesAgree(db: Db) {
    && (forall t :: t in db.occupancy ==> SessionsAgree(db, t))
    && (forall t :: Replay(db.events, t) == Some(if t in db.occupancy then db.occupancy[t] else Occupancy(Available, None, 1)))
    && (forall s :: s in db.sessions ==> db.sessions[s].table in db.occupancy)
  }

  lemma ReplayAppend(events: seq<Event>, e: Event, t: Id)
    ensures Replay(events + [e], t) ==
            match Replay(events, t) { case None => None case Some(o) => if e.entity == TableEntity(t) then Advance(o, e) else Some(o) }
  {
    assert (events + [e])[..|events|] == events;
  }

  /** A committed command appends exactly the announced event and leaves the rows `execute` produced. */
  lemma CommitShape(db: Db, r: Request)
    requires Commit(db, r).Ok?
    ensures Execute(db, r).Ok?
    ensures var x := Execute(db, r).value; var c := Commit(db, r).value;
            && c.value == x.value && c.announce == x.announce
            && c.db.occupancy == x.db.occupancy && c.db.sessions == x.db.sessions && c.db.assists == x.db.assists
            && c.db.live == x.db.live && c.db.guestActions == x.db.guestActions
            && c.db.events == (if x.announce then x.db.events + [EventFor(r, x.value)] else x.db.events)
            && c.db.outbox == (if x.announce
                               then x.db.outbox + OutboxRows(r.env.eventId, TopicFor(x.value), OperationDestinations())
                               else x.db.outbox)
  {
  }

  lemma OccupyEffect(db: Db, r: Request)
    requires r.command.OccupyTable? && Commit(db, r).Ok?
    ensures var t := r.command.table; var after := Commit(db, r).value.db; var o := Occupancy(Occupied, Some(r.env.rowId), r.command.expected + 1);
            && t in db.occupancy && t in db.live && db.occupancy[t].status == Available && db.occupancy[t].version == r.command.expected
            && r.env.rowId !in db.sessions
            && after.sessions == db.sessions[r.env.rowId := Session(t, r.command.partySize, r.env.began, None)]
            && after.occupancy == db.occupancy[t := o]
            && after.events == db.events + [Event(r.env.eventId, r.env.now, TableOccupied, TableEntity(t), o.version, TableData(r.env.rowId, Occupied))]
  {
    CommitShape(db, r);
  }

  lemma ClearEffect(db: Db, r: Request)
    requires r.command.ClearTable? && Commit(db, r).Ok?
    ensures var t := r.command.table; var after := Commit(db, r).value.db;
            && t in db.occupancy && t in db.live && db.occupancy[t].status == Occupied && db.occupancy[t].version == r.command.expected
            && db.occupancy[t].session.Some?
            && var s := db.occupancy[t].session.value;
            && IsOpen(db, s) && db.sessions[s].startedAt <= r.env.began
            && after.sessions == db.sessions[s := db.sessions[s].(endedAt := Some(r.env.began))]
            && after.occupancy == db.occupancy[t := Occupancy(Available, None, r.command.expected + 1)]
            && after.events == db.events + [Event(r.env.eventId, r.env.now, TableCleared, TableEntity(t), r.command.expected + 1, TableData(s, Available))]
  {
    CommitShape(db, r);
  }

  lemma AssistCommandEffect(db: Db, r: Request)
    requires !r.command.OccupyTable? && !r.command.ClearTable? && Commit(db, r).Ok?
    ensures var after := Commit(db, r).value.db;
            && after.occupancy == db.occupancy && after.sessions == db.sessions
            && (after.events == db.events
                || (|after.events| == |db.events| + 1 && after.events[..|db.events|] == db.events && after.events[|db.events|].entity.AssistEntity?))
  {
    CommitShape(db, r);
  }

  /** Moving one table to the occupancy its next event describes keeps every log in step. */
  lemma LogsAgree(db: Db, after: Db, t: Id, o: Occupancy, e: Event)
    requires TablesAgree(db) && t in db.occupancy && e.entity == TableEntity(t) && Advance(db.occupancy[t], e) == Some(o)
    requires after.occupancy == db.occupancy[t := o] && after.events == db.events + [e]
    ensures forall u :: Replay(after.events, u) == Some(if u in after.occupancy then after.occupancy[u] else Occupancy(Available, None, 1))
  {
    forall u ensures Replay(after.events, u) == Some(if u in after.occupancy then after.occupancy[u] else Occupancy(Available, None, 1)) {
      ReplayAppend(db.events, e, u);
    }
  }

  lemma OccupyAgrees(db: Db, r: Request)
    requires TablesAgree(db) && r.command.OccupyTable? && Commit(db, r).Ok?
    ensures TablesAgree(Commit(db, r).value.db)
  {
    OccupyEffect(db, r);
    var after, t := Commit(db, r).value.db, r.command.table;
    LogsAgree(db, after, t, after.occupancy[t], after.events[|db.events|]);
    OpenedSessionAgrees(db, after, t, r.env.rowId);
  }

  lemma OpenedSessionAgrees(db: Db, after: Db, t: Id, s: Id)
    requires TablesAgree(db) && t in db.occupancy && db.occupancy[t].status == Available && s !in db.sessions
    requires s in after.sessions && after.sessions[s].table == t && after.sessions[s].endedAt.None?
    requires after.sessions == db.sessions[s := after.sessions[s]]
    requires t in after.occupancy && after.occupancy[t].status == Occupied && after.occupancy[t].session == Some(s)
    requires after.occupancy == db.occupancy[t := after.occupancy[t]]
    ensures forall u :: u in after.occupancy ==> SessionsAgree(after, u)
  {
    forall u | u in after.occupancy ensures SessionsAgree(after, u) {
      assert SessionsAgree(db, u);
      forall x | IsOpen(after, x) && after.sessions[x].table == u ensures after.occupancy[u].session == Some(x) {
        assert x != s ==> IsOpen(db, x);
      }
    }
  }

  lemma ClearAgrees(db: Db, r: Request)
    requires TablesAgree(db) && r.command.ClearTable? && Commit(db, r).Ok?
    ensures TablesAgree(Commit(db, r).value.db)
  {
    ClearEffect(db, r);
    var after, t := Commit(db, r).value.db, r.command.table;
    LogsAgree(db, after, t, after.occupancy[t], after.events[|db.events|]);
    ClosedSessionAgrees(db, after, t, db.occupancy[t].session.value);
  }

  lemma ClosedSessionAgrees(db: Db, after: Db, t: Id, s: Id)
    requires TablesAgree(db) && t in db.occupancy && db.occupancy[t].session == Some(s)
    requires s in db.sessions && s in after.sessions && after.sessions[s].table == db.sessions[s].table && after.sessions[s].endedAt.Some?
    requires after.sessions == db.sessions[s := after.sessions[s]]
    requires t in after.occupancy && after.occupancy[t].status == Available && after.occupancy[t].session == None
    requires after.occupancy == db.occupancy[t := after.occupancy[t]]
    ensures forall u :: u in after.occupancy ==> SessionsAgree(after, u)
  {
    assert SessionsAgree(db, t);
    forall u | u in after.occupancy ensures SessionsAgree(after, u) {
      assert SessionsAgree(db, u);
      forall x | IsOpen(after, x) && after.sessions[x].table == u ensures after.occupancy[u].session == Some(x) {
        assert x != s && IsOpen(db, x);
      }
    }
  }

  lemma AssistCommandAgrees(db: Db, r: Request)
    requires TablesAgree(db) && !r.command.OccupyTable? && !r.command.ClearTable? && Commit(db, r).Ok?
    ensures TablesAgree(Commit(db, r).value.db)
  {
    AssistCommandEffect(db, r);
    UntouchedTablesAgree(db, Commit(db, r).value.db);
  }

  lemma UntouchedTablesAgree(db: Db, after: Db)
    requires TablesAgree(db) && after.occupancy == db.occupancy && after.sessions == db.sessions
    requires || after.events == db.events
             || (|after.events| == |db.events| + 1 && after.events[..|db.events|] == db.events && after.events[|db.events|].entity.AssistEntity?)
    ensures TablesAgree(after)
  {
    forall u | u in after.occupancy ensures SessionsAgree(after, u) {
      assert SessionsAgree(db, u);
    }
  }

  lemma ApplyAgrees(db: Db, step: Step)
    requires TablesAgree(db)
    ensures TablesAgree(Apply(db, step))
  {
    match step
    case Submit(r) =>
      if RunCommand(db, r).1.Done? {
        if r.command.OccupyTable? { OccupyAgrees(db, r); }
        else if r.command.ClearTable? { ClearAgrees(db, r); }
        else { AssistCommandAgrees(db, r); }
      }
    case _ =>
      forall u | u in Apply(db, step).occupancy ensures SessionsAgree(Apply(db, step), u) {
        assert u in db.occupancy ==> SessionsAgree(db, u);
      }
  }

  /**
   In every reachable state a table is occupied exactly when its current session is open and its
   own, no other session of it is open, and its log replays to the stored status, session and version.
   */
  lemma {:induction false} EveryRunAgrees(steps: seq<Step>)
    ensures TablesAgree(Run(EMPTY, steps))
  {
    if steps != [] {
      EveryRunAgrees(steps[..|steps| - 1]);
      ApplyAgrees(Run(EMPTY, steps[..|steps| - 1]), steps[|steps| - 1]);
    }
  }

  // ---------------------------------------------------------------- sessions in time

  ghost predicate Before(a: Session, b: Session) {
    a.endedAt.Some? && a.endedAt.value <= b.startedAt
  }

  /** The sessions of a table do not overlap. */
  ghost predicate Disjoint(db: Db, t: Id) {
    forall s, u :: s in db.sessions && u in db.sessions && s != u && db.sessions[s].table == t && db.sessions[u].table == t ==>
      Before(db.sessions[s], db.sessions[u]) || Before(db.sessions[u], db.sessions[s])
  }

  /** The step is a command on the table that is executed and succeeds. */
  ghost predicate Occupies(db: Db, step: Step, t: Id) {
    step.Submit? && step.request.command.OccupyTable? && step.request.command.table == t && RunCommand(db, step.request).1.Done?
  }

  ghost predicate Clears(db: Db, step: Step, t: Id) {
    step.Submit? && step.request.command.ClearTable? && step.request.command.table == t && RunCommand(db, step.request).1.Done?
  }

  /** A transaction that occupies the table began no earlier than those that had cleared it. */
  ghost predicate BeganAfterClears(db: Db, step: Step, t: Id) {
    Occupies(db, step, t) ==>
      forall s :: s in db.sessions && db.sessions[s].table == t && db.sessions[s].endedAt.Some? ==>
        db.sessions[s].endedAt.value <= step.request.env.began
  }

  ghost predicate StampsFollow(steps: seq<Step>, t: Id) {
    steps != [] ==>
      StampsFollow(steps[..|steps| - 1], t) && BeganAfterClears(Run(EMPTY, steps[..|steps| - 1]), steps[|steps| - 1], t)
  }

  /** At every point of the run the table's sessions do not overlap. */
  ghost predicate DisjointThroughout(steps: seq<Step>, t: Id) {
    Disjoint(Run(EMPTY, steps), t) && (steps != [] ==> DisjointThroughout(steps[..|steps| - 1], t))
  }

  lemma OpenedDisjointIff(db: Db, after: Db, id: Id, session: Session)
    requires Disjoint(db, session.table) && session.endedAt.None?
    requires id !in db.sessions && after.sessions == db.sessions[id := session]
    requires forall s :: s in db.sessions && db.sessions[s].table == session.table ==> !IsOpen(db, s)
    ensures Disjoint(after, session.table) <==>
            forall s :: s in db.sessions && db.sessions[s].table == session.table ==> Before(db.sessions[s], session)
  {
    if Disjoint(after, session.table) {
      forall s | s in db.sessions && db.sessions[s].table == session.table ensures Before(db.sessions[s], session) {
        assert after.sessions[s] == db.sessions[s] && after.sessions[id] == session;
      }
    }
  }

  /** The one open session ends; the others ended before it began. */
  lemma EndedDisjoint(db: Db, after: Db, id: Id, began: Time, t: Id)
    requires Disjoint(db, t) && IsOpen(db, id) && after.sessions == db.sessions[id := db.sessions[id].(endedAt := Some(began))]
    ensures Disjoint(after, t)
  {
  }

  lemma OtherTableDisjoint(db: Db, after: Db, id: Id, t: Id)
    requires Disjoint(db, t) && id in after.sessions && after.sessions[id].table != t
    requires after.sessions == db.sessions[id := after.sessions[id]] && (id in db.sessions ==> db.sessions[id].table != t)
    ensures Disjoint(after, t)
  {
  }

  lemma ApplyDisjointIff(db: Db, step: Step, t: Id)
    requires TablesAgree(db) && Disjoint(db, t)
    ensures Disjoint(Apply(db, step), t) <==> BeganAfterClears(db, step, t)
  {
    if step.Submit? && RunCommand(db, step.request).1.Done? {
      var r, after := step.request, Apply(db, step);
      if r.command.OccupyTable? {
        OccupyEffect(db, r);
        assert SessionsAgree(db, r.command.table);
        if r.command.table == t {
          OpenedDisjointIff(db, after, r.env.rowId, after.sessions[r.env.rowId]);
          forall s | s in db.sessions && db.sessions[s].table == t ensures db.sessions[s].endedAt.Some? { assert !IsOpen(db, s); }
        }
        else { OtherTableDisjoint(db, after, r.env.rowId, t); }
      } else if r.command.ClearTable? {
        ClearEffect(db, r);
        EndedDisjoint(db, after, db.occupancy[r.command.table].session.value, r.env.began, t);
      } else {
        AssistCommandEffect(db, r);
      }
    }
  }

  /**
   The sessions of a table never overlap, at any point of a run, if and only if every transaction that
   occupied it began no earlier than every one that had cleared it before. Failed commands, replays,
   clears and other tables do not matter.
   */
  lemma {:induction false} EveryRunDisjointIff(steps: seq<Step>, t: Id)
    ensures DisjointThroughout(steps, t) <==> StampsFollow(steps, t)
  {
    if steps != [] {
      var before := steps[..|steps| - 1];
      EveryRunDisjointIff(before, t);
      EveryRunAgrees(before);
      if DisjointThroughout(before, t) { ApplyDisjointIff(Run(EMPTY, before), steps[|steps| - 1], t); }
    }
  }

  function Occupy(id: Id, expected: int, began: Time): Step {
    Submit(Request(id, "table.occupy", 0, OccupyTable(7, expected, None), NoEncoder, Env(began, 10, id, id)))
  }

  function Clear(id: Id, expected: int, began: Time): Step {
    Submit(Request(id, "table.clear", 0, ClearTable(7, expected), NoEncoder, Env(began, 10, id, id)))
  }

  /** Table 7 alone, with these sessions, after commands with these ids. */
  ghost predicate Stands(db: Db, o: Occupancy, sessions: map<Id, Session>, ids: seq<Id>) {
    && db.occupancy == map[7 := o] && 7 in db.live && db.sessions == sessions
    && |db.events| == |ids| && (forall i :: 0 <= i < |ids| ==> db.events[i].id == ids[i])
    && (forall id :: id in db.idempotency ==> id in ids)
  }

  lemma AfterOccupy(steps: seq<Step>, version: int, sessions: map<Id, Session>, ids: seq<Id>, id: Id, began: Time)
    requires Stands(Run(EMPTY, steps), Occupancy(Available, None, version), sessions, ids) && id != NIL && id !in ids && id !in sessions
    ensures Stands(Run(EMPTY, steps + [Occupy(id, version, began)]), Occupancy(Occupied, Some(id), version + 1),
                   sessions[id := Session(7, None, began, None)], ids + [id])
  {
    RunAppend(EMPTY, steps, Occupy(id, version, began));
  }

  lemma AfterClear(steps: seq<Step>, version: int, sessions: map<Id, Session>, ids: seq<Id>, id: Id, began: Time, s: Id)
    requires Stands(Run(EMPTY, steps), Occupancy(Occupied, Some(s), version), sessions, ids) && id != NIL && id !in ids
    requires s in sessions && sessions[s].endedAt.None? && sessions[s].startedAt <= began
    ensures Stands(Run(EMPTY, steps + [Clear(id, version, began)]), Occupancy(Available, None, version + 1),
                   sessions[s := sessions[s].(endedAt := Some(began))], ids + [id])
  {
    RunAppend(EMPTY, steps, Clear(id, version, began));
  }

  lemma TwoOverlap(db: Db)
    requires db.sessions == map[1 := Session(7, None, 0, Some(10)), 3 := Session(7, None, 5, None)]
    ensures !Disjoint(db, 7)
  {
    assert 1 in db.sessions && 3 in db.sessions && !Before(db.sessions[1], db.sessions[3]) && !Before(db.sessions[3], db.sessions[1]);
  }

  lemma NewTable()
    ensures Stands(Run(EMPTY, [AddTable(7)]), Occupancy(Available, None, 1), map[], [])
  {
    RunAppend(EMPTY, [], AddTable(7));
    assert [] + [AddTable(7)] == [AddTable(7)];
  }

  lemma FirstVisit()
    ensures Stands(Run(EMPTY, [AddTable(7)] + [Occupy(1, 1, 0)] + [Clear(2, 2, 10)]),
                   Occupancy(Available, None, 3), map[1 := Session(7, None, 0, Some(10))], [1, 2])
  {
    var s1 := [AddTable(7)];
    NewTable();
    AfterOccupy(s1, 1, map[], [], 1, 0);
    AfterClear(s1 + [Occupy(1, 1, 0)], 2, map[1 := Session(7, None, 0, None)], [1], 2, 10, 1);
    assert map[1 := Session(7, None, 0, None)][1 := Session(7, None, 0, Some(10))] == map[1 := Session(7, None, 0, Some(10))];
  }

  /** The second guests' transaction begins at 5 and waits for the table, which is cleared by one that began at 10. */
  lemma WaitingOccupyOverlaps()
    ensures var db := Run(EMPTY, [AddTable(7)] + [Occupy(1, 1, 0)] + [Clear(2, 2, 10)] + [Occupy(3, 3, 5)]);
            db.sessions == map[1 := Session(7, None, 0, Some(10)), 3 := Session(7, None, 5, None)] && !Disjoint(db, 7)
  {
    FirstVisit();
    var before := [AddTable(7)] + [Occupy(1, 1, 0)] + [Clear(2, 2, 10)];
    AfterOccupy(before, 3, map[1 := Session(7, None, 0, Some(10))], [1, 2], 3, 5);
    TwoOverlap(Run(EMPTY, before + [Occupy(3, 3, 5)]));
  }

  /** Every session that has ended did so no earlier than it started. */
  ghost predicate Forward(db: Db) {
    forall s :: s in db.sessions && db.sessions[s].endedAt.Some? ==> db.sessions[s].startedAt <= db.sessions[s].endedAt.value
  }

  lemma {:induction false} EveryRunForward(steps: seq<Step>)
    ensures Forward(Run(EMPTY, steps))
  {
    if steps != [] {
      var db, step := Run(EMPTY, steps[..|steps| - 1]), steps[|steps| - 1];
      EveryRunForward(steps[..|steps| - 1]);
      if step.Submit? && RunCommand(db, step.request).1.Done? {
        var r := step.request;
        if r.command.OccupyTable? { OccupyEffect(db, r); }
        else if r.command.ClearTable? { ClearEffect(db, r); }
        else { AssistCommandEffect(db, r); }
      }
    }
  }

  ghost predicate NothingAfter(db: Db, now: Time) {
    forall s :: s in db.sessions ==> db.sessions[s].startedAt <= now && (db.sessions[s].endedAt.Some? ==> db.sessions[s].endedAt.value <= now)
  }

  /** No session is stamped later than the transactions of the run began. */
  lemma {:induction false} EveryRunPast(steps: seq<Step>, now: Time)
    requires forall i :: 0 <= i < |steps| && steps[i].Submit? ==> steps[i].request.env.began <= now
    ensures NothingAfter(Run(EMPTY, steps), now)
  {
    if steps != [] {
      var db, step := Run(EMPTY, steps[..|steps| - 1]), steps[|steps| - 1];
      EveryRunPast(steps[..|steps| - 1], now);
      if step.Submit? && RunCommand(db, step.request).1.Done? {
        var r := step.request;
        if r.command.OccupyTable? { OccupyEffect(db, r); }
        else if r.command.ClearTable? { ClearEffect(db, r); }
        else { AssistCommandEffect(db, r); }
      }
    }
  }
}
