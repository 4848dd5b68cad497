/** Assist requests: one pending guest request per session and action, and event logs that spell legal paths. */
module AssistHistory {
  import opened Common
  import opened Operations
  import opened TableHistory

  /** What the log alone says about one assist request. */
  datatype Trail = Absent | At(status: AssistStatus, version: int) | Broken

  function KindOf(status: AssistStatus): EventType {
    match status
    case Pending => AssistRequested
    case Acknowledged => AssistAcknowledged
    case Resolved => AssistResolved
    case Cancelled => AssistCancelled
  }

  function AdvanceTrail(trail: Trail, e: Event): Trail {
    if !e.data.AssistData? || e.kind != KindOf(e.data.assistStatus) then Broken
    else match trail
    case Absent => if e.version == 1 && e.data.assistStatus == Pending then At(Pending, 1) else Broken
    case At(s, v) => if e.version == v + 1 && ValidAssistTransition(s, e.data.assistStatus) then At(e.data.assistStatus, v + 1) else Broken
    case Broken => Broken
  }

  function ReplayAssist(events: seq<Event>, a: Id): Trail {
    if events == [] then Absent
    else
      var trail := ReplayAssist(events[..|events| - 1], a);
      var e := events[|events| - 1];
      if e.entity == AssistEntity(a) then AdvanceTrail(trail, e) else trail
  }

  /** The events of one assist request, in order. */
  function PathOf(events: seq<Event>, a: Id): seq<Event> {
    if events == [] then []
    else PathOf(events[..|events| - 1], a) + (if events[|events| - 1].entity == AssistEntity(a) then [events[|events| - 1]] else [])
  }

  ghost predicate IsWalk(path: seq<Event>) {
    && (forall i :: 0 <= i < |path| ==> path[i].data.AssistData? && path[i].version == i + 1 && path[i].kind == KindOf(path[i].data.assistStatus))
    && (path != [] ==> path[0].data.assistStatus == Pending)
    && (forall i :: 1 <= i < |path| ==> ValidAssistTransition(path[i - 1].data.assistStatus, path[i].data.assistStatus))
  }

  predicate VersionFits(status: AssistStatus, version: int) {
    match status
    case Pending => version == 1
    case Acknowledged => version == 2
    case Resolved | Cancelled => version == 2 || version == 3
  }

  ghost predicate AssistsAgree(db: Db) {
    && (forall a :: ReplayAssist(db.events, a) == if a in db.assists then At(db.assists[a].status, db.assists[a].version) else Absent)
    && (forall a :: a in db.assists ==> VersionFits(db.assists[a].status, db.assists[a].version))
    && (forall a :: a in db.assists && db.assists[a].source == GuestQr ==> db.assists[a].actionKey.Some?)
  }

  ghost predicate OnePendingPerAction(db: Db) {
    forall a, b, t, s, key :: IsPendingGuest(db, a, t, s, key) && IsPendingGuest(db, b, t, s, key) ==> a == b
  }

  lemma ReplayAssistAppend(events: seq<Event>, e: Event, a: Id)
    ensures ReplayAssist(events + [e], a) == if e.entity == AssistEntity(a) then AdvanceTrail(ReplayAssist(events, a), e) else ReplayAssist(events, a)
  {
    assert (events + [e])[..|events|] == events;
  }

  /** The three things a command can do to the assist rows: nothing, insert a pending row, or move one row. */
  datatype Change = Untouched | Inserted(a: Id, row: Assist) | Moved(a: Id, next: AssistStatus)

  ghost predicate Explains(change: Change, db: Db, after: Db) {
    match change
    case Untouched =>
      after.assists == db.assists
      && (after.events == db.events || exists e: Event :: e.entity.TableEntity? && after.events == db.events + [e])
    case Inserted(a, row) =>
      && a !in db.assists && row.status == Pending && row.version == 1
      && (row.source == GuestQr ==> row.actionKey.Some?)
      && after.assists == db.assists[a := row]
      && (forall t, s, key :: IsGuestAssist(row, t, s, key) ==> forall b :: !IsPendingGuest(db, b, t, s, key))
      && exists e: Event :: Describes(e, a, row) && after.events == db.events + [e]
    case Moved(a, next) =>
      && a in db.assists && ValidAssistTransition(db.assists[a].status, next)
      && var row := db.assists[a].(status := next, version := db.assists[a].version + 1);
      && after.assists == db.assists[a := row]
      && exists e: Event :: Describes(e, a, row) && after.events == db.events + [e]
  }

  ghost predicate Describes(e: Event, a: Id, row: Assist) {
    e.entity == AssistEntity(a) && e.kind == KindOf(row.status) && e.version == row.version && e.data == AssistData(row.table, row.status)
  }

  ghost function ChangeOf(db: Db, r: Request): Change
    requires Commit(db, r).Ok?
  {
    var x := Commit(db, r).value;
    match r.command
    case OccupyTable(_, _, _) => Untouched
    case ClearTable(_, _) => Untouched
    case RequestAssist(_, _) => if x.value.AssistValue? then Inserted(r.env.rowId, x.value.row) else Untouched
    case CreateGuestRequest(_, _) => if x.announce && x.value.AssistValue? then Inserted(r.env.rowId, x.value.row) else Untouched
    case ChangeAssist(a, _, next) => Moved(a, next)
    case CancelGuestRequest(_, a) => Moved(a, Cancelled)
  }

  lemma TableCommandExplained(db: Db, r: Request)
    requires Commit(db, r).Ok? && (r.command.OccupyTable? || r.command.ClearTable?)
    ensures Explains(Untouched, db, Commit(db, r).value.db)
  {
    CommitShape(db, r);
    var e := EventFor(r, Execute(db, r).value.value);
    assert e.entity.TableEntity?;
  }

  lemma StaffRequestExplained(db: Db, r: Request)
    requires Commit(db, r).Ok? && r.command.RequestAssist?
    ensures Explains(ChangeOf(db, r), db, Commit(db, r).value.db)
  {
    CommitShape(db, r);
    var x := Execute(db, r).value;
    assert Describes(EventFor(r, x.value), r.env.rowId, x.value.row);
  }

  lemma GuestRequestExplained(db: Db, r: Request)
    requires Commit(db, r).Ok? && r.command.CreateGuestRequest?
    ensures Explains(ChangeOf(db, r), db, Commit(db, r).value.db)
  {
    CommitShape(db, r);
    var x := Execute(db, r).value;
    if x.announce {
      assert Describes(EventFor(r, x.value), r.env.rowId, x.value.row);
    }
  }

  lemma ChangeAssistExplained(db: Db, r: Request)
    requires Commit(db, r).Ok? && (r.command.ChangeAssist? || r.command.CancelGuestRequest?)
    ensures Explains(ChangeOf(db, r), db, Commit(db, r).value.db)
  {
    CommitShape(db, r);
    var x := Execute(db, r).value;
    assert Describes(EventFor(r, x.value), x.value.assist, x.value.row);
  }

  lemma CommandExplained(db: Db, r: Request)
    requires Commit(db, r).Ok?
    ensures Explains(ChangeOf(db, r), db, Commit(db, r).value.db)
  {
    match r.command
    case OccupyTable(_, _, _) => TableCommandExplained(db, r);
    case ClearTable(_, _) => TableCommandExplained(db, r);
    case RequestAssist(_, _) => StaffRequestExplained(db, r);
    case CreateGuestRequest(_, _) => GuestRequestExplained(db, r);
    case _ => ChangeAssistExplained(db, r);
  }

  lemma ChangeAgrees(change: Change, db: Db, after: Db)
    requires AssistsAgree(db) && Explains(change, db, after)
    ensures AssistsAgree(after)
  {
    if change.Untouched? && after.events != db.events {
      var e: Event :| e.entity.TableEntity? && after.events == db.events + [e];
      forall b ensures ReplayAssist(after.events, b) == ReplayAssist(db.events, b) { ReplayAssistAppend(db.events, e, b); }
    } else if !change.Untouched? {
      var a := change.a;
      var e: Event :| Describes(e, a, after.assists[a]) && after.events == db.events + [e];
      forall b ensures ReplayAssist(after.events, b) == if b in after.assists then At(after.assists[b].status, after.assists[b].version) else Absent {
        ReplayAssistAppend(db.events, e, b);
      }
    }
  }

  lemma ChangeKeepsOnePending(change: Change, db: Db, after: Db)
    requires OnePendingPerAction(db) && Explains(change, db, after)
    ensures OnePendingPerAction(after)
  {
    forall a, b, t, s, key | IsPendingGuest(after, a, t, s, key) && IsPendingGuest(after, b, t, s, key) ensures a == b {
      if change.Untouched? {
        assert IsPendingGuest(db, a, t, s, key) && IsPendingGuest(db, b, t, s, key);
      } else {
        assert a != change.a ==> IsPendingGuest(db, a, t, s, key);
        assert b != change.a ==> IsPendingGuest(db, b, t, s, key);
      }
    }
  }

  lemma ApplyAssists(db: Db, step: Step)
    requires AssistsAgree(db) && OnePendingPerAction(db)
    ensures AssistsAgree(Apply(db, step)) && OnePendingPerAction(Apply(db, step))
  {
    var after := Apply(db, step);
    if step.Submit? && RunCommand(db, step.request).1.Done? {
      CommandExplained(db, step.request);
      ChangeAgrees(ChangeOf(db, step.request), db, after);
      ChangeKeepsOnePending(ChangeOf(db, step.request), db, after);
    } else {
      assert Explains(Untouched, db, after);
      ChangeKeepsOnePending(Untouched, db, after);
    }
  }

  /** In every run there is at most one pending guest request per session and action, and logs agree with rows. */
  lemma {:induction false} EveryRunAssists(steps: seq<Step>)
    ensures AssistsAgree(Run(EMPTY, steps)) && OnePendingPerAction(Run(EMPTY, steps))
  {
    if steps != [] {
      EveryRunAssists(steps[..|steps| - 1]);
      ApplyAssists(Run(EMPTY, steps[..|steps| - 1]), steps[|steps| - 1]);
    }
  }

  lemma {:induction false} TrailIsWalk(events: seq<Event>, a: Id)
    requires ReplayAssist(events, a) != Broken
    ensures IsWalk(PathOf(events, a))
    ensures ReplayAssist(events, a) == if PathOf(events, a) == [] then Absent
                                       else At(PathOf(events, a)[|PathOf(events, a)| - 1].data.assistStatus, |PathOf(events, a)|)
  {
    if events != [] {
      TrailIsWalk(events[..|events| - 1], a);
    }
  }

  /**
   The events of an assist request spell its whole life: pending, then at most two legal moves with
   versions 1, 2, 3, ending at the stored status and version.
   */
  lemma EventsSpellThePath(steps: seq<Step>, a: Id)
    ensures var db := Run(EMPTY, steps); var path := PathOf(db.events, a);
            && IsWalk(path) && |path| <= 3
            && (a in db.assists <==> path != [])
            && (a in db.assists ==> |path| == db.assists[a].version && path[|path| - 1].data.assistStatus == db.assists[a].status)
  {
    EveryRunAssists(steps);
    TrailIsWalk(Run(EMPTY, steps).events, a);
  }

  /** No later step of any run changes a resolved or cancelled request. */
  lemma {:induction false} TerminalIsForever(steps: seq<Step>, n: nat, a: Id)
    requires n <= |steps| && a in Run(EMPTY, steps[..n]).assists && IsTerminal(Run(EMPTY, steps[..n]).assists[a].status)
    ensures a in Run(EMPTY, steps).assists && Run(EMPTY, steps).assists[a] == Run(EMPTY, steps[..n]).assists[a]
  {
    if n == |steps| {
      assert steps[..n] == steps;
    } else {
      var last := |steps| - 1;
      assert steps[..last][..n] == steps[..n];
      TerminalIsForever(steps[..last], n, a);
      var db := Run(EMPTY, steps[..last]);
      if steps[last].Submit? && RunCommand(db, steps[last].request).1.Done? {
        CommandExplained(db, steps[last].request);
      }
    }
  }
}
