/**
 The table and assist commands of `internal/domain/operations`, as functions of the rows they
 read and write. One organisation and one location are modelled, and one call is one database
 transaction. The ids a command draws (`uuid.New`, `gen_random_uuid()`) and the clocks it reads
 are part of the request, so a colliding id is an ordinary primary-key error, not an assumption.
 */
module Operations {
  import opened Common

  /** A uuid; 0 is `uuid.Nil`. */
  type Id = nat
  const NIL: Id := 0

  type Time = int

  const GUEST_COOLDOWN: Time := 120

  datatype TableStatus = Available | Occupied

  datatype Occupancy = Occupancy(status: TableStatus, session: Option<Id>, version: int)

  datatype Session = Session(table: Id, partySize: Option<int>, startedAt: Time, endedAt: Option<Time>)

  datatype AssistStatus = Pending | Acknowledged | Resolved | Cancelled

  datatype Source = GuestQr | Staff(name: string)

  datatype Assist = Assist(table: Id, session: Option<Id>, status: AssistStatus, requestedAt: Time,
                           source: Source, actionKey: Option<string>, version: int)

  datatype EventType = TableOccupied | TableCleared
                     | AssistRequested | AssistAcknowledged | AssistResolved | AssistCancelled

  datatype Entity = TableEntity(table: Id) | AssistEntity(assist: Id)

  datatype EventData = TableData(session: Id, status: TableStatus) | AssistData(table: Id, assistStatus: AssistStatus)

  datatype Event = Event(id: Id, occurredAt: Time, kind: EventType, entity: Entity, version: int, data: EventData)

  datatype OutboxRow = OutboxRow(event: Id, topic: string, destination: string)

  datatype Value = TableValue(table: Id, occupancy: Occupancy, session: Id) | AssistValue(assist: Id, row: Assist)

  datatype Body = EmptyObject | Encoded(value: Value)

  datatype Idempotency = Idempotency(commandType: string, payloadHash: nat, status: int, body: Body)

  /** The rows of one location. */
  datatype Db = Db(occupancy: map<Id, Occupancy>, live: set<Id>, guestActions: set<string>,
                   sessions: map<Id, Session>, assists: map<Id, Assist>,
                   events: seq<Event>, outbox: seq<OutboxRow>, idempotency: map<Id, Idempotency>)

  const EMPTY: Db := Db(map[], {}, {}, map[], map[], [], [], map[])

  datatype Command =
    | OccupyTable(table: Id, expected: int, partySize: Option<int>)
    | ClearTable(table: Id, expected: int)
    | RequestAssist(table: Id, source: Source)
    | ChangeAssist(assist: Id, expected: int, next: AssistStatus)
    | CreateGuestRequest(capability: Option<Id>, actionKey: string)
    | CancelGuestRequest(capability: Option<Id>, assist: Id)

  /** How the caller turns the result into a response; a nil encoder stores status 200 and `{}`. */
  datatype Encoder = NoEncoder | FailingEncoder | Encoder(status: int)

  /**
   The clocks read and the fresh ids drawn while the command runs. `began` is the transaction's start, which
   stamps its rows; `now` is read by the process later, after any wait for the table's row.
   */
  datatype Env = Env(began: Time, now: Time, rowId: Id, eventId: Id)

  datatype Request = Request(id: Id, commandType: string, payloadHash: nat, command: Command, encoder: Encoder, env: Env)

  datatype Error = NotFound | VersionConflict | AlreadyOccupied | AlreadyAvailable | NoActiveSession
                 | InvalidAssistTransition | AssistAlreadyResolved | IdempotencyConflict
                 | ActionNotEnabled | RateLimited | StoreError | EncodingError

  datatype Response = Done(value: Value, status: int, body: Body) | Replayed(status: int, body: Body) | Failed(error: Error)

  /** What `execute` hands to `after`: the new rows, the value, and whether an event is due. */
  datatype Effect = Effect(db: Db, value: Value, announce: bool)

  // ---------------------------------------------------------------- single statements

  function LockTableOccupancy(db: Db, table: Id): Option<Occupancy> {
    if table in db.occupancy && table in db.live then Some(db.occupancy[table]) else None
  }

  function MarkTableOccupied(db: Db, table: Id, session: Id, expected: int): Option<Db> {
    if table in db.occupancy && db.occupancy[table].status == Available && db.occupancy[table].version == expected
    then Some(db.(occupancy := db.occupancy[table := Occupancy(Occupied, Some(session), expected + 1)]))
    else None
  }

  function MarkTableAvailable(db: Db, table: Id, expected: int): Option<Db> {
    if table in db.occupancy && db.occupancy[table].status == Occupied && db.occupancy[table].version == expected
    then Some(db.(occupancy := db.occupancy[table := Occupancy(Available, None, expected + 1)]))
    else None
  }

  /** The row is refused when the id is taken or the party size is not positive. */
  function CreateTableSession(db: Db, id: Id, table: Id, partySize: Option<int>, began: Time): Option<Db> {
    if id in db.sessions || (partySize.Some? && partySize.value <= 0) then None
    else Some(db.(sessions := db.sessions[id := Session(table, partySize, began, None)]))
  }

  predicate IsOpen(db: Db, session: Id) {
    session in db.sessions && db.sessions[session].endedAt.None?
  }

  function CreateAssistRequest(db: Db, id: Id, row: Assist): Option<Db> {
    if id in db.assists || (row.source == GuestQr && row.actionKey.None?) then None
    else Some(db.(assists := db.assists[id := row]))
  }

  predicate ValidAssistTransition(current: AssistStatus, next: AssistStatus) {
    match next
    case Pending => false
    case Acknowledged => current == Pending
    case Resolved | Cancelled => current == Pending || current == Acknowledged
  }

  predicate IsGuestAssist(a: Assist, table: Id, session: Id, actionKey: string) {
    a.table == table && a.session == Some(session) && a.actionKey == Some(actionKey) && a.source == GuestQr
  }

  predicate IsPendingGuest(db: Db, id: Id, table: Id, session: Id, actionKey: string) {
    id in db.assists && IsGuestAssist(db.assists[id], table, session, actionKey) && db.assists[id].status == Pending
  }

  predicate IsTerminal(status: AssistStatus) {
    status == Resolved || status == Cancelled
  }

  /** The newest terminal request is inside the cooldown exactly when some terminal request is. */
  predicate CoolingDown(db: Db, table: Id, session: Id, actionKey: string, now: Time) {
    exists id | id in db.assists ::
      && IsGuestAssist(db.assists[id], table, session, actionKey)
      && IsTerminal(db.assists[id].status)
      && now - db.assists[id].requestedAt < GUEST_COOLDOWN
  }

  predicate IsKeyChar(c: char) {
    'a' <= c <= 'z' || '0' <= c <= '9' || c == '_'
  }

  predicate ValidActionKey(key: string) {
    && 2 <= |key| <= 64
    && 'a' <= key[0] <= 'z'
    && forall i :: 1 <= i < |key| ==> IsKeyChar(key[i])
  }

  // ---------------------------------------------------------------- execute

  function OccupyTableInTx(db: Db, env: Env, table: Id, expected: int, partySize: Option<int>): Result<Effect, Error> {
    match LockTableOccupancy(db, table)
    case None => Err(NotFound)
    case Some(o) =>
      if o.status == Occupied then Err(AlreadyOccupied)
      else if o.version != expected then Err(VersionConflict)
      else
        match CreateTableSession(db, env.rowId, table, partySize, env.began)
        case None => Err(StoreError)
        case Some(db1) =>
          match MarkTableOccupied(db1, table, env.rowId, expected)
          case None => Err(VersionConflict)
          case Some(db2) => Ok(Effect(db2, TableValue(table, db2.occupancy[table], env.rowId), true))
  }

  function ClearTableInTx(db: Db, env: Env, table: Id, expected: int): Result<Effect, Error> {
    match LockTableOccupancy(db, table)
    case None => Err(NotFound)
    case Some(o) =>
      if o.status == Available then Err(AlreadyAvailable)
      else if o.version != expected then Err(VersionConflict)
      else if o.session.None? then Err(NoActiveSession)
      else if !IsOpen(db, o.session.value) then Err(NoActiveSession)
      else if env.began < db.sessions[o.session.value].startedAt then Err(StoreError)
      else
        var s := o.session.value;
        var db1 := db.(sessions := db.sessions[s := db.sessions[s].(endedAt := Some(env.began))]);
        match MarkTableAvailable(db1, table, expected)
        case None => Err(VersionConflict)
        case Some(db2) => Ok(Effect(db2, TableValue(table, db2.occupancy[table], s), true))
  }

  function RequestAssistInTx(db: Db, env: Env, table: Id, source: Source): Result<Effect, Error> {
    match LockTableOccupancy(db, table)
    case None => Err(NotFound)
    case Some(o) =>
      var row := Assist(table, o.session, Pending, env.began, source, None, 1);
      match CreateAssistRequest(db, env.rowId, row)
      case None => Err(StoreError)
      case Some(db1) => Ok(Effect(db1, AssistValue(env.rowId, row), true))
  }

  function ChangeAssistInTx(db: Db, assist: Id, expected: int, next: AssistStatus): Result<Effect, Error> {
    if assist !in db.assists then Err(NotFound)
    else
      var row := db.assists[assist];
      if row.version != expected then Err(VersionConflict)
      else if row.status == Resolved && next == Resolved then Err(AssistAlreadyResolved)
      else if !ValidAssistTransition(row.status, next) then Err(InvalidAssistTransition)
      else
        var updated := row.(status := next, version := row.version + 1);
        Ok(Effect(db.(assists := db.assists[assist := updated]), AssistValue(assist, updated), true))
  }

  /** An already pending request for the same session and action is returned as it is, unannounced. */
  ghost function CreateGuestRequestInTx(db: Db, env: Env, table: Id, actionKey: string): Result<Effect, Error> {
    if actionKey !in db.guestActions then Err(ActionNotEnabled)
    else
      match LockTableOccupancy(db, table)
      case None => Err(NotFound)
      case Some(o) =>
        if o.status != Occupied || o.session.None? then Err(NoActiveSession)
        else if exists id :: IsPendingGuest(db, id, table, o.session.value, actionKey) then
          var id :| IsPendingGuest(db, id, table, o.session.value, actionKey);
          Ok(Effect(db, AssistValue(id, db.assists[id]), false))
        else if CoolingDown(db, table, o.session.value, actionKey, env.now) then Err(RateLimited)
        else
          var row := Assist(table, o.session, Pending, env.began, GuestQr, Some(actionKey), 1);
          match CreateAssistRequest(db, env.rowId, row)
          case None => Err(StoreError)
          case Some(db1) => Ok(Effect(db1, AssistValue(env.rowId, row), true))
  }

  function CancelGuestRequestInTx(db: Db, table: Id, assist: Id): Result<Effect, Error> {
    if assist !in db.assists || db.assists[assist].table != table || db.assists[assist].source != GuestQr then Err(NotFound)
    else if db.assists[assist].status != Pending then Err(InvalidAssistTransition)
    else
      var updated := db.assists[assist].(status := Cancelled, version := db.assists[assist].version + 1);
      Ok(Effect(db.(assists := db.assists[assist := updated]), AssistValue(assist, updated), true))
  }

  ghost function Execute(db: Db, r: Request): Result<Effect, Error> {
    match r.command
    case OccupyTable(t, expected, partySize) => OccupyTableInTx(db, r.env, t, expected, partySize)
    case ClearTable(t, expected) => ClearTableInTx(db, r.env, t, expected)
    case RequestAssist(t, source) => RequestAssistInTx(db, r.env, t, source)
    case ChangeAssist(a, expected, next) => ChangeAssistInTx(db, a, expected, next)
    case CreateGuestRequest(Some(t), key) => CreateGuestRequestInTx(db, r.env, t, key)
    case CancelGuestRequest(Some(t), a) => CancelGuestRequestInTx(db, t, a)
    case CreateGuestRequest(None, _) => Err(NotFound)
    case CancelGuestRequest(None, _) => Err(NotFound)
  }

  // ---------------------------------------------------------------- after

  const TABLE_TOPIC := "operations.table"
  const ASSIST_TOPIC := "operations.assist"

  function OperationDestinations(): seq<string> {
    ["realtime.operations", "analytics.operations", "audit.operations"]
  }

  /** The event type the command's `after` closure names. */
  function EventKind(command: Command): EventType {
    match command
    case OccupyTable(_, _, _) => TableOccupied
    case ClearTable(_, _) => TableCleared
    case RequestAssist(_, _) => AssistRequested
    case CreateGuestRequest(_, _) => AssistRequested
    case CancelGuestRequest(_, _) => AssistCancelled
    case ChangeAssist(_, _, next) =>
      if next == Acknowledged then AssistAcknowledged else if next == Resolved then AssistResolved else AssistCancelled
  }

  function EventFor(r: Request, value: Value): Event {
    match value
    case TableValue(t, o, s) =>
      Event(r.env.eventId, r.env.now, EventKind(r.command), TableEntity(t), o.version, TableData(s, o.status))
    case AssistValue(a, row) =>
      Event(r.env.eventId, r.env.now, EventKind(r.command), AssistEntity(a), row.version, AssistData(row.table, row.status))
  }

  function TopicFor(value: Value): string {
    if value.TableValue? then TABLE_TOPIC else ASSIST_TOPIC
  }

  predicate HasEvent(events: seq<Event>, id: Id) {
    exists i :: 0 <= i < |events| && events[i].id == id
  }

  function OutboxRows(event: Id, topic: string, destinations: seq<string>): seq<OutboxRow> {
    seq(|destinations|, i requires 0 <= i < |destinations| => OutboxRow(event, topic, destinations[i]))
  }

  function WriteOperationalEvent(db: Db, event: Event, topic: string): Option<Db> {
    if HasEvent(db.events, event.id) then None
    else Some(db.(events := db.events + [event], outbox := db.outbox + OutboxRows(event.id, topic, OperationDestinations())))
  }

  // ---------------------------------------------------------------- the whole command

  /** `RequestAssist` runs without command metadata; the others are keyed by a non-nil id. */
  predicate Keyed(r: Request) {
    r.id != NIL && !r.command.RequestAssist?
  }

  /** Checks made before the transaction opens. */
  predicate AdmittedAction(r: Request) {
    r.command.CreateGuestRequest? ==> ValidActionKey(r.command.actionKey)
  }

  predicate CapabilityResolved(r: Request) {
    && (r.command.CreateGuestRequest? ==> r.command.capability.Some?)
    && (r.command.CancelGuestRequest? ==> r.command.capability.Some?)
  }

  predicate Matches(record: Idempotency, r: Request) {
    record.commandType == r.commandType && record.payloadHash == r.payloadHash
  }

  /**
   The encoder that runs: a staff request has none, and a guest command calls its encoder unconditionally,
   so a nil one panics before the commit and keeps nothing.
   */
  function EncoderOf(r: Request): Encoder {
    match r.command
    case RequestAssist(_, _) => NoEncoder
    case CreateGuestRequest(_, _) => if r.encoder.NoEncoder? then FailingEncoder else r.encoder
    case CancelGuestRequest(_, _) => if r.encoder.NoEncoder? then FailingEncoder else r.encoder
    case _ => r.encoder
  }

  function StatusOf(encoder: Encoder): int {
    if encoder.Encoder? then encoder.status else 200
  }

  function BodyOf(encoder: Encoder, value: Value): Body {
    if encoder.Encoder? then Encoded(value) else EmptyObject
  }

  /** The rows after `execute`, `after`, encoding and the idempotency insert; an error rolls all of it back. */
  ghost function Commit(db: Db, r: Request): Result<Effect, Error> {
    match Execute(db, r)
    case Err(e) => Err(e)
    case Ok(effect) =>
      match if effect.announce then WriteOperationalEvent(effect.db, EventFor(r, effect.value), TopicFor(effect.value))
            else Some(effect.db)
      case None => Err(StoreError)
      case Some(db1) =>
        if EncoderOf(r).FailingEncoder? then Err(EncodingError)
        else if !Keyed(r) then Ok(effect.(db := db1))
        else
          var record := Idempotency(r.commandType, r.payloadHash, StatusOf(EncoderOf(r)), BodyOf(EncoderOf(r), effect.value));
          Ok(effect.(db := db1.(idempotency := db1.idempotency[r.id := record])))
  }

  ghost function RunCommand(db: Db, r: Request): (Db, Response) {
    if !AdmittedAction(r) then (db, Failed(ActionNotEnabled))
    else if !CapabilityResolved(r) then (db, Failed(NotFound))
    else if Keyed(r) && r.id in db.idempotency then
      var record := db.idempotency[r.id];
      (db, if Matches(record, r) then Replayed(record.status, record.body) else Failed(IdempotencyConflict))
    else
      match Commit(db, r)
      case Err(e) => (db, Failed(e))
      case Ok(effect) => (effect.db, Done(effect.value, StatusOf(EncoderOf(r)), BodyOf(EncoderOf(r), effect.value)))
  }

  // ---------------------------------------------------------------- runs

  /** One committed transaction: a command, or one of the layout edits the commands depend on. */
  datatype Step =
    | Submit(request: Request)
    | AddTable(table: Id)
    | SetLive(table: Id, live: bool)
    | SetGuestActions(keys: set<string>)

  ghost function Apply(db: Db, step: Step): Db {
    match step
    case Submit(r) => RunCommand(db, r).0
    case AddTable(t) =>
      if t in db.occupancy then db
      else db.(occupancy := db.occupancy[t := Occupancy(Available, None, 1)], live := db.live + {t})
    case SetLive(t, live) => db.(live := if live then db.live + {t} else db.live - {t})
    case SetGuestActions(keys) => db.(guestActions := keys)
  }

  ghost function Run(db: Db, steps: seq<Step>): Db {
    if steps == [] then db else Apply(Run(db, steps[..|steps| - 1]), steps[|steps| - 1])
  }

  lemma RunAppend(db: Db, steps: seq<Step>, step: Step)
    ensures Run(db, steps + [step]) == Apply(Run(db, steps), step)
  {
    assert (steps + [step])[..|steps|] == steps;
  }

  /** What `execute` never writes: the log, the outbox and the idempotency rows. */
  lemma ExecuteKeepsLog(db: Db, r: Request)
    requires Execute(db, r).Ok?
    ensures Execute(db, r).value.db.events == db.events && Execute(db, r).value.db.outbox == db.outbox
    ensures Execute(db, r).value.db.idempotency == db.idempotency
  {
  }
}
