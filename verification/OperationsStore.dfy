/**
 The command runner over rows updated in place: statements change the fields one by one and an
 error restores the rows the transaction started from. Each method is tied to its function in
 Operations, about which TableHistory, AssistHistory and Retries prove what runs keep.
 */
module OperationsStore {
  import opened Common
  import opened Operations
  import opened AssistHistory

  /** What a statement method leaves: the function's rows and value, or its error and rows to be rolled back. */
  ghost predicate Realises(spec: Result<Effect, Error>, r: Result<Value, Error>, rows: Db) {
    match spec
    case Ok(x) => r == Ok(x.value) && rows == x.db
    case Err(e) => r == Err(e)
  }

  class Store {
    var occupancy: map<Id, Occupancy>
    var live: set<Id>
    var guestActions: set<string>
    var sessions: map<Id, Session>
    var assists: map<Id, Assist>
    var events: seq<Event>
    var outbox: seq<OutboxRow>
    var idempotency: map<Id, Idempotency>

    function Rows(): Db
      reads this
    {
      Db(occupancy, live, guestActions, sessions, assists, events, outbox, idempotency)
    }

    /** The lookup of a pending guest request has at most one answer. */
    ghost predicate Valid()
      reads this
    {
      OnePendingPerAction(Rows())
    }

    constructor ()
      ensures Valid() && Rows() == EMPTY
    {
      occupancy, live, guestActions, sessions, assists := map[], {}, {}, map[], map[];
      events, outbox, idempotency := [], [], map[];
    }

    method Rollback(saved: Db)
      modifies this
      ensures Rows() == saved
    {
      occupancy, live, guestActions, sessions := saved.occupancy, saved.live, saved.guestActions, saved.sessions;
      assists, events, outbox, idempotency := saved.assists, saved.events, saved.outbox, saved.idempotency;
    }

    method OccupyTable(env: Env, table: Id, expected: int, partySize: Option<int>) returns (r: Result<Value, Error>)
      modifies this
      ensures Realises(OccupyTableInTx(old(Rows()), env, table, expected, partySize), r, Rows())
    {
      if table !in occupancy || table !in live { return Err(NotFound); }
      var current := occupancy[table];
      if current.status == Occupied { return Err(AlreadyOccupied); }
      if current.version != expected { return Err(VersionConflict); }
      if env.rowId in sessions || (partySize.Some? && partySize.value <= 0) { return Err(StoreError); }
      sessions := sessions[env.rowId := Session(table, partySize, env.began, None)];
      occupancy := occupancy[table := Occupancy(Occupied, Some(env.rowId), current.version + 1)];
      return Ok(TableValue(table, occupancy[table], env.rowId));
    }

    method ClearTable(env: Env, table: Id, expected: int) returns (r: Result<Value, Error>)
      modifies this
      ensures Realises(ClearTableInTx(old(Rows()), env, table, expected), r, Rows())
    {
      if table !in occupancy || table !in live { return Err(NotFound); }
      var current := occupancy[table];
      if current.status == Available { return Err(AlreadyAvailable); }
      if current.version != expected { return Err(VersionConflict); }
      if current.session.None? { return Err(NoActiveSession); }
      var s := current.session.value;
      if s !in sessions || sessions[s].endedAt.Some? { return Err(NoActiveSession); }
      if env.began < sessions[s].startedAt { return Err(StoreError); }
      sessions := sessions[s := sessions[s].(endedAt := Some(env.began))];
      occupancy := occupancy[table := Occupancy(Available, None, current.version + 1)];
      return Ok(TableValue(table, occupancy[table], s));
    }

    method RequestAssist(env: Env, table: Id, source: Source) returns (r: Result<Value, Error>)
      modifies this
      ensures Realises(RequestAssistInTx(old(Rows()), env, table, source), r, Rows())
    {
      if table !in occupancy || table !in live { return Err(NotFound); }
      var row := Assist(table, occupancy[table].session, Pending, env.began, source, None, 1);
      if env.rowId in assists || source == GuestQr { return Err(StoreError); }
      assists := assists[env.rowId := row];
      return Ok(AssistValue(env.rowId, row));
    }

    method ChangeAssist(assist: Id, expected: int, next: AssistStatus) returns (r: Result<Value, Error>)
      modifies this
      ensures Realises(ChangeAssistInTx(old(Rows()), assist, expected, next), r, Rows())
    {
      if assist !in assists { return Err(NotFound); }
      var current := assists[assist];
      if current.version != expected { return Err(VersionConflict); }
      if current.status == Resolved && next == Resolved { return Err(AssistAlreadyResolved); }
      if !ValidAssistTransition(current.status, next) { return Err(InvalidAssistTransition); }
      assists := assists[assist := current.(status := next, version := current.version + 1)];
      return Ok(AssistValue(assist, assists[assist]));
    }

    method CreateGuestRequest(env: Env, table: Id, actionKey: string) returns (r: Result<Value, Error>, createdNew: bool)
      requires Valid()
      modifies this
      ensures Realises(CreateGuestRequestInTx(old(Rows()), env, table, actionKey), r, Rows())
      ensures r.Ok? ==> createdNew == CreateGuestRequestInTx(old(Rows()), env, table, actionKey).value.announce
    {
      createdNew := false;
      if actionKey !in guestActions { return Err(ActionNotEnabled), false; }
      if table !in occupancy || table !in live { return Err(NotFound), false; }
      var current := occupancy[table];
      if current.status != Occupied || current.session.None? { return Err(NoActiveSession), false; }
      var s := current.session.value;
      if exists id | id in assists :: IsPendingGuest(Rows(), id, table, s, actionKey) {
        var pending :| pending in assists && IsPendingGuest(Rows(), pending, table, s, actionKey);
        return Ok(AssistValue(pending, assists[pending])), false;
      }
      if CoolingDown(Rows(), table, s, actionKey, env.now) { return Err(RateLimited), false; }
      var row := Assist(table, current.session, Pending, env.began, GuestQr, Some(actionKey), 1);
      if env.rowId in assists { return Err(StoreError), false; }
      assists := assists[env.rowId := row];
      return Ok(AssistValue(env.rowId, row)), true;
    }

    method CancelGuestRequest(table: Id, assist: Id) returns (r: Result<Value, Error>)
      modifies this
      ensures Realises(CancelGuestRequestInTx(old(Rows()), table, assist), r, Rows())
    {
      if assist !in assists || assists[assist].table != table || assists[assist].source != GuestQr { return Err(NotFound); }
      if assists[assist].status != Pending { return Err(InvalidAssistTransition); }
      assists := assists[assist := assists[assist].(status := Cancelled, version := assists[assist].version + 1)];
      return Ok(AssistValue(assist, assists[assist]));
    }

    method RunInTx(request: Request) returns (r: Result<Value, Error>, announce: bool)
      requires Valid() && CapabilityResolved(request)
      modifies this
      ensures Realises(Execute(old(Rows()), request), r, Rows())
      ensures r.Ok? ==> announce == Execute(old(Rows()), request).value.announce
    {
      announce := true;
      match request.command
      case OccupyTable(t, expected, partySize) => r := OccupyTable(request.env, t, expected, partySize);
      case ClearTable(t, expected) => r := ClearTable(request.env, t, expected);
      case RequestAssist(t, source) => r := RequestAssist(request.env, t, source);
      case ChangeAssist(a, expected, next) => r := ChangeAssist(a, expected, next);
      case CreateGuestRequest(capability, key) => r, announce := CreateGuestRequest(request.env, capability.value, key);
      case CancelGuestRequest(capability, a) => r := CancelGuestRequest(capability.value, a);
    }

    /** Inserts the event and one outbox row per destination. */
    method InsertOperationalEvent(event: Event, topic: string) returns (ok: bool)
      modifies this
      ensures ok == WriteOperationalEvent(old(Rows()), event, topic).Some?
      ensures ok ==> Rows() == WriteOperationalEvent(old(Rows()), event, topic).value
    {
      if HasEvent(events, event.id) { return false; }
      events := events + [event];
      var destinations := OperationDestinations();
      ghost var written := OutboxRows(event.id, topic, destinations);
      for i := 0 to |destinations|
        invariant Rows() == old(Rows()).(events := old(events) + [event], outbox := old(outbox) + written[..i])
      {
        outbox := outbox + [OutboxRow(event.id, topic, destinations[i])];
        assert written[..i + 1] == written[..i] + [written[i]];
      }
      return true;
    }

    /** One command: replay, conflict, or execute, announce, encode and record, all or nothing. */
    method RunTenantCommand(request: Request) returns (response: Response)
      requires Valid()
      modifies this
      ensures (Rows(), response) == RunCommand(old(Rows()), request)
      ensures Valid()
    {
      if !AdmittedAction(request) { return Failed(ActionNotEnabled); }
      if !CapabilityResolved(request) { return Failed(NotFound); }
      var saved := Rows();
      if Keyed(request) && request.id in idempotency {
        var record := idempotency[request.id];
        if !Matches(record, request) { return Failed(IdempotencyConflict); }
        return Replayed(record.status, record.body);
      }
      var r, announce := RunInTx(request);
      if r.Err? {
        Rollback(saved);
        return Failed(r.error);
      }
      if announce {
        var written := InsertOperationalEvent(EventFor(request, r.value), TopicFor(r.value));
        if !written {
          Rollback(saved);
          return Failed(StoreError);
        }
      }
      if EncoderOf(request).FailingEncoder? {
        Rollback(saved);
        return Failed(EncodingError);
      }
      var status, body := StatusOf(EncoderOf(request)), BodyOf(EncoderOf(request), r.value);
      if Keyed(request) {
        idempotency := idempotency[request.id := Idempotency(request.commandType, request.payloadHash, status, body)];
      }
      CommandExplained(saved, request);
      ChangeKeepsOnePending(ChangeOf(saved, request), saved, Rows());
      return Done(r.value, status, body);
    }
  }
}
