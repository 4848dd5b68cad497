/** Guest requests for one action are spaced out over whole runs, as far as the code spaces them. */
module GuestCooldown {
  import opened Common
  import opened Operations
  import opened AssistHistory

  /** What a request keeps for good: whose it is, what for, and when it was made. */
  ghost predicate SameRequest(a: Assist, b: Assist) {
    a.table == b.table && a.session == b.session && a.source == b.source && a.actionKey == b.actionKey && a.requestedAt == b.requestedAt
  }

  /**
   A guest request that a command inserts is later than every ended one for the same action by at least the
   cooldown less the command's own wait: the row is stamped when the transaction begins, the cooldown is
   looked at when the table's row has been locked.
   */
  lemma InsertedAfterCooldown(db: Db, r: Request, a: Id, b: Id, t: Id, s: Id, key: string)
    requires Commit(db, r).Ok? && b !in db.assists && b in Commit(db, r).value.db.assists
    requires IsGuestAssist(Commit(db, r).value.db.assists[b], t, s, key)
    requires a in db.assists && IsGuestAssist(db.assists[a], t, s, key) && IsTerminal(db.assists[a].status)
    ensures r.command.CreateGuestRequest? && Commit(db, r).value.db.assists[b].requestedAt == r.env.began
    ensures r.env.now - db.assists[a].requestedAt >= GUEST_COOLDOWN
    ensures Commit(db, r).value.db.assists[b].requestedAt - db.assists[a].requestedAt >= GUEST_COOLDOWN - (r.env.now - r.env.began)
  {
    CommandExplained(db, r);
    TableHistory.CommitShape(db, r);
    assert !CoolingDown(db, t, s, key, r.env.now);
  }

  lemma StepKeepsRequest(db: Db, step: Step, b: Id)
    requires b in db.assists
    ensures b in Apply(db, step).assists && SameRequest(Apply(db, step).assists[b], db.assists[b])
  {
    if step.Submit? && RunCommand(db, step.request).1.Done? { CommandExplained(db, step.request); }
  }

  /** From step `n` on, no guest's request waits longer than `wait` between its beginning and its look at the cooldown. */
  predicate WaitsAtMost(steps: seq<Step>, n: nat, wait: Time) {
    forall i :: n <= i < |steps| && steps[i].Submit? && steps[i].request.command.CreateGuestRequest? ==>
      steps[i].request.env.now - steps[i].request.env.began <= wait
  }

  /**
   In every run, a guest request made after an earlier one of the same session and action had been
   resolved or cancelled is later than that one by at least the cooldown less the longest wait.
   */
  lemma {:induction false} EndedRequestsAreSpaced(steps: seq<Step>, n: nat, a: Id, b: Id, t: Id, s: Id, key: string, wait: Time)
    requires n < |steps| && WaitsAtMost(steps, n, wait)
    requires a in Run(EMPTY, steps[..n]).assists && IsGuestAssist(Run(EMPTY, steps[..n]).assists[a], t, s, key)
    requires IsTerminal(Run(EMPTY, steps[..n]).assists[a].status)
    requires b !in Run(EMPTY, steps[..n]).assists && b in Run(EMPTY, steps).assists && IsGuestAssist(Run(EMPTY, steps).assists[b], t, s, key)
    ensures Run(EMPTY, steps).assists[b].requestedAt - Run(EMPTY, steps[..n]).assists[a].requestedAt >= GUEST_COOLDOWN - wait
  {
    var rest, last := steps[..|steps| - 1], steps[|steps| - 1];
    assert rest[..n] == steps[..n];
    var db := Run(EMPTY, rest);
    TerminalIsForever(rest, n, a);
    if b in db.assists {
      assert rest[..|rest|] == rest;
      StepKeepsRequest(db, last, b);
      EndedRequestsAreSpaced(rest, n, a, b, t, s, key, wait);
    } else {
      InsertedAfterCooldown(db, last.request, a, b, t, s, key);
      assert steps[|steps| - 1].request == last.request;
    }
  }

  // ---------------------------------------------------------------- what the cooldown does not look at

  /** A guest's first submission of a request for an enabled action of an occupied table, with fresh ids. */
  ghost predicate CanAsk(db: Db, r: Request, t: Id, s: Id, key: string) {
    && r.command == CreateGuestRequest(Some(t), key) && ValidActionKey(key) && key in db.guestActions
    && t in db.live && t in db.occupancy && db.occupancy[t].status == Occupied && db.occupancy[t].session == Some(s)
    && r.id != NIL && r.id !in db.idempotency
    && r.env.rowId !in db.assists && !HasEvent(db.events, r.env.eventId) && r.encoder.Encoder?
  }

  /** The command succeeds with a new request, rather than answering with one already there or refusing. */
  ghost predicate Inserts(db: Db, r: Request) {
    RunCommand(db, r).1.Done? && r.env.rowId in RunCommand(db, r).0.assists
  }

  /** Where neither a pending request nor the cooldown stands in the way, the request is made. */
  lemma Asked(db: Db, r: Request, t: Id, s: Id, key: string)
    requires CanAsk(db, r, t, s, key)
    requires (forall id :: !IsPendingGuest(db, id, t, s, key)) && !CoolingDown(db, t, s, key, r.env.now)
    ensures Inserts(db, r)
    ensures var after := RunCommand(db, r).0;
            && after.assists == db.assists[r.env.rowId := Assist(t, Some(s), Pending, r.env.began, GuestQr, Some(key), 1)]
            && after.events == db.events + [EventFor(r, AssistValue(r.env.rowId, after.assists[r.env.rowId]))]
            && after.idempotency.Keys == db.idempotency.Keys + {r.id}
            && after.occupancy == db.occupancy && after.live == db.live && after.guestActions == db.guestActions
  {
    assert Execute(db, r).Ok?;
    TableHistory.CommitShape(db, r);
  }

  /**
   A guest's request is admitted if and only if every earlier one for the same table, session and action
   is acknowledged, or has ended and was made at least the cooldown before this one looks.
   */
  lemma AdmittedIff(db: Db, r: Request, t: Id, s: Id, key: string)
    requires CanAsk(db, r, t, s, key)
    ensures Inserts(db, r) <==>
            forall a :: a in db.assists && IsGuestAssist(db.assists[a], t, s, key) ==>
              db.assists[a].status == Acknowledged
              || (IsTerminal(db.assists[a].status) && r.env.now - db.assists[a].requestedAt >= GUEST_COOLDOWN)
  {
    if exists id :: IsPendingGuest(db, id, t, s, key) {
      var id :| IsPendingGuest(db, id, t, s, key);
      assert Execute(db, r).Ok? && !Execute(db, r).value.announce && Execute(db, r).value.db == db;
      assert IsGuestAssist(db.assists[id], t, s, key);
    } else if CoolingDown(db, t, s, key, r.env.now) {
      assert Execute(db, r) == Err(RateLimited);
    } else {
      Asked(db, r, t, s, key);
      forall a | a in db.assists && IsGuestAssist(db.assists[a], t, s, key)
        ensures db.assists[a].status == Acknowledged
                || (IsTerminal(db.assists[a].status) && r.env.now - db.assists[a].requestedAt >= GUEST_COOLDOWN) {
        assert !IsPendingGuest(db, a, t, s, key);
      }
    }
  }

  /** Right after an earlier request, a new one is admitted if and only if the earlier one is acknowledged and no other one forbids it. */
  lemma AdmittedInsideCooldownIff(db: Db, r: Request, a: Id, t: Id, s: Id, key: string)
    requires CanAsk(db, r, t, s, key)
    requires a in db.assists && IsGuestAssist(db.assists[a], t, s, key) && r.env.now - db.assists[a].requestedAt < GUEST_COOLDOWN
    requires forall b :: b in db.assists && IsGuestAssist(db.assists[b], t, s, key) && r.env.now - db.assists[b].requestedAt < GUEST_COOLDOWN ==> b == a
    requires forall b :: IsPendingGuest(db, b, t, s, key) ==> b == a
    ensures Inserts(db, r) <==> db.assists[a].status == Acknowledged
  {
    AdmittedIff(db, r, t, s, key);
    forall b | b in db.assists && IsGuestAssist(db.assists[b], t, s, key) && b != a
      ensures db.assists[b].status == Acknowledged || IsTerminal(db.assists[b].status) {
      assert !IsPendingGuest(db, b, t, s, key);
    }
  }

  /**
   Whatever command inserts a guest request by less than the cooldown less its own wait after an earlier
   one, the earlier one is acknowledged.
   */
  lemma YoungOneIsAcknowledged(db: Db, r: Request, a: Id, b: Id, t: Id, s: Id, key: string)
    requires Commit(db, r).Ok? && b !in db.assists && b in Commit(db, r).value.db.assists
    requires IsGuestAssist(Commit(db, r).value.db.assists[b], t, s, key)
    requires a in db.assists && IsGuestAssist(db.assists[a], t, s, key)
    requires Commit(db, r).value.db.assists[b].requestedAt - db.assists[a].requestedAt < GUEST_COOLDOWN - (r.env.now - r.env.began)
    ensures db.assists[a].status == Acknowledged
  {
    CommandExplained(db, r);
    if IsTerminal(db.assists[a].status) { InsertedAfterCooldown(db, r, a, b, t, s, key); }
    assert !IsPendingGuest(db, a, t, s, key);
  }

  // ---------------------------------------------------------------- runs in which it happens

  function Ask(id: Id, row: Id, began: Time, now: Time): Request {
    Request(id, "guest.request", 0, CreateGuestRequest(Some(7), "water"), Encoder(201), Env(began, now, row, id))
  }

  const SEATED := Request(11, "table.occupy", 0, OccupyTable(7, 1, None), NoEncoder, Env(0, 0, 1, 11))

  /** Staff take or end the first request. */
  function Answer(next: AssistStatus): Request {
    Request(13, "assist.change", 0, ChangeAssist(2, 1, next), NoEncoder, Env(11, 11, 99, 13))
  }

  /** The table is seated, a guest asks, staff answer, and a second request follows. */
  function Evening(next: AssistStatus, second: Request): seq<Step> {
    [AddTable(7)] + [SetGuestActions({"water"})] + [Submit(SEATED)] + [Submit(Ask(12, 2, 10, 10))] + [Submit(Answer(next))] + [Submit(second)]
  }

  /** Table 7 is seated at session 1, and the requests of that session so far are as given. */
  ghost predicate Seated(db: Db, assists: map<Id, Assist>, events: seq<Id>) {
    && db.occupancy == map[7 := Occupancy(Occupied, Some(1), 2)] && 7 in db.live && "water" in db.guestActions && db.assists == assists
    && |db.events| == |events| && (forall i :: 0 <= i < |events| ==> db.events[i].id == events[i])
    && (forall id :: id in db.idempotency ==> id in events)
  }

  lemma EveningSeated()
    ensures Seated(Run(EMPTY, [AddTable(7)] + [SetGuestActions({"water"})] + [Submit(SEATED)]), map[], [11])
  {
    var s1 := [AddTable(7)];
    var s2 := s1 + [SetGuestActions({"water"})];
    RunAppend(EMPTY, [], AddTable(7));
    assert [] + [AddTable(7)] == s1;
    RunAppend(EMPTY, s1, SetGuestActions({"water"}));
    RunAppend(EMPTY, s2, Submit(SEATED));
  }

  lemma EveningAsked(steps: seq<Step>, assists: map<Id, Assist>, events: seq<Id>, r: Request)
    requires Seated(Run(EMPTY, steps), assists, events) && r == Ask(r.id, r.env.rowId, r.env.began, r.env.now)
    requires r.id != NIL && r.id !in events && r.env.rowId !in assists && r.env.eventId == r.id
    requires forall a :: a in assists ==>
               assists[a].status == Acknowledged || (IsTerminal(assists[a].status) && r.env.now - assists[a].requestedAt >= GUEST_COOLDOWN)
    ensures Seated(Run(EMPTY, steps + [Submit(r)]),
                   assists[r.env.rowId := Assist(7, Some(1), Pending, r.env.began, GuestQr, Some("water"), 1)], events + [r.id])
  {
    var db := Run(EMPTY, steps);
    RunAppend(EMPTY, steps, Submit(r));
    assert forall id :: !IsPendingGuest(db, id, 7, 1, "water");
    assert ValidActionKey("water");
    Asked(db, r, 7, 1, "water");
  }

  lemma EveningAnswered(steps: seq<Step>, row: Assist, next: AssistStatus)
    requires Seated(Run(EMPTY, steps), map[2 := row], [11, 12]) && row.status == Pending && row.version == 1 && next != Pending
    ensures Seated(Run(EMPTY, steps + [Submit(Answer(next))]), map[2 := row.(status := next, version := 2)], [11, 12, 13])
  {
    RunAppend(EMPTY, steps, Submit(Answer(next)));
  }

  lemma EveningEnds(next: AssistStatus, second: Request)
    requires next != Pending && second == Ask(14, 3, second.env.began, second.env.now)
    requires next == Acknowledged || second.env.now >= 10 + GUEST_COOLDOWN
    ensures var first := Assist(7, Some(1), Pending, 10, GuestQr, Some("water"), 1);
            Seated(Run(EMPTY, Evening(next, second)),
                   map[2 := first.(status := next, version := 2), 3 := first.(requestedAt := second.env.began)], [11, 12, 13, 14])
  {
    var s3 := [AddTable(7)] + [SetGuestActions({"water"})] + [Submit(SEATED)];
    var s4 := s3 + [Submit(Ask(12, 2, 10, 10))];
    var row := Assist(7, Some(1), Pending, 10, GuestQr, Some("water"), 1);
    EveningSeated();
    EveningAsked(s3, map[], [11], Ask(12, 2, 10, 10));
    assert [11] + [12] == [11, 12];
    EveningAnswered(s4, row, next);
    EveningAsked(s4 + [Submit(Answer(next))], map[2 := row.(status := next, version := 2)], [11, 12, 13], second);
    assert [11, 12, 13] + [14] == [11, 12, 13, 14];
  }

  /** From an empty store: the table is seated, a guest asks, staff acknowledge, and two seconds after the first the second request is admitted. */
  lemma AcknowledgedDoesNotHold()
    ensures var db := Run(EMPTY, Evening(Acknowledged, Ask(14, 3, 12, 12)));
            && 2 in db.assists && db.assists[2].status == Acknowledged && IsGuestAssist(db.assists[2], 7, 1, "water")
            && 3 in db.assists && db.assists[3].status == Pending && IsGuestAssist(db.assists[3], 7, 1, "water")
            && db.assists[3].requestedAt - db.assists[2].requestedAt == 2
  {
    EveningEnds(Acknowledged, Ask(14, 3, 12, 12));
  }

  /** For every wait the bound is reached: a request that waits so long for the table is stamped that much inside the cooldown. */
  lemma WaitShortensCooldown(wait: nat)
    ensures var second := Ask(14, 3, 10 + GUEST_COOLDOWN - wait, 10 + GUEST_COOLDOWN);
            var db := Run(EMPTY, Evening(Resolved, second));
            && WaitsAtMost(Evening(Resolved, second), 0, wait)
            && 2 in db.assists && db.assists[2].status == Resolved && IsGuestAssist(db.assists[2], 7, 1, "water")
            && 3 in db.assists && db.assists[3].status == Pending && IsGuestAssist(db.assists[3], 7, 1, "water")
            && db.assists[3].requestedAt - db.assists[2].requestedAt == GUEST_COOLDOWN - wait
  {
    EveningEnds(Resolved, Ask(14, 3, 10 + GUEST_COOLDOWN - wait, 10 + GUEST_COOLDOWN));
  }
}
