/**
 What a command must find before it is executed: the version its caller saw, a legal move, and for guests
 their own table; and that each version of a row is used up by one command at most.
 */
module CommandGuards {
  import opened Common
  import opened Operations
  import opened TableHistory
  import opened AssistHistory

  /** The moves of an assist request, written out. */
  predicate LegalMove(current: AssistStatus, next: AssistStatus) {
    || (current == Pending && next == Acknowledged)
    || (current == Pending && next == Resolved)
    || (current == Pending && next == Cancelled)
    || (current == Acknowledged && next == Resolved)
    || (current == Acknowledged && next == Cancelled)
  }

  /** The request stands at this version and may make this move. */
  predicate MayChange(db: Db, a: Id, version: int, next: AssistStatus) {
    a in db.assists && db.assists[a].version == version && LegalMove(db.assists[a].status, next)
  }

  /** A first submission that nothing but the command itself can stop; a guest's needs an encoder. */
  ghost predicate Unhindered(db: Db, r: Request) {
    && r.id != NIL && r.id !in db.idempotency && !HasEvent(db.events, r.env.eventId) && !r.encoder.FailingEncoder?
    && (r.command.CancelGuestRequest? || r.command.CreateGuestRequest? ==> r.encoder.Encoder?)
  }

  /** A staff change that is executed found the request at the version its caller had seen, and made a legal move by one version. */
  lemma ChangeFoundItsVersion(db: Db, r: Request)
    requires r.command.ChangeAssist? && RunCommand(db, r).1.Done?
    ensures var (a, next) := (r.command.assist, r.command.next);
            && MayChange(db, a, r.command.expected, next)
            && RunCommand(db, r).0.assists == db.assists[a := db.assists[a].(status := next, version := r.command.expected + 1)]
  {
    CommitShape(db, r);
  }

  /** Unless something else is in the way, it is executed if and only if it may be; another version is a conflict that changes nothing. */
  lemma ChangeExecutedIff(db: Db, r: Request)
    requires r.command.ChangeAssist? && Unhindered(db, r)
    ensures RunCommand(db, r).1.Done? <==> MayChange(db, r.command.assist, r.command.expected, r.command.next)
    ensures r.command.assist in db.assists && db.assists[r.command.assist].version != r.command.expected ==>
              RunCommand(db, r) == (db, Failed(VersionConflict))
    ensures r.command.assist !in db.assists ==> RunCommand(db, r) == (db, Failed(NotFound))
    ensures r.command.assist in db.assists && db.assists[r.command.assist].version == r.command.expected
            && !LegalMove(db.assists[r.command.assist].status, r.command.next) ==>
              RunCommand(db, r) == (db, Failed(if db.assists[r.command.assist].status == Resolved == r.command.next then AssistAlreadyResolved
                                               else InvalidAssistTransition))
  {
  }

  /** Whatever command is executed, it logs nothing or one event, which has the id and the time that the process drew. */
  lemma EventIsStamped(db: Db, r: Request)
    requires RunCommand(db, r).1.Done?
    ensures var after := RunCommand(db, r).0;
            after.events == db.events
            || (after.events[..|db.events|] == db.events && |after.events| == |db.events| + 1
                && after.events[|db.events|].id == r.env.eventId && after.events[|db.events|].occurredAt == r.env.now)
  {
    CommitShape(db, r);
    ExecuteKeepsLog(db, r);
    var x := Execute(db, r).value;
    if x.announce { assert RunCommand(db, r).0.events == db.events + [EventFor(r, x.value)]; }
  }

  /** A guest's cancellation that is executed found a pending guest request of the table that the guest's capability is for. */
  lemma CancelFoundItsOwn(db: Db, r: Request)
    requires r.command.CancelGuestRequest? && RunCommand(db, r).1.Done?
    ensures var a := r.command.assist;
            && a in db.assists && Some(db.assists[a].table) == r.command.capability && db.assists[a].source == GuestQr && db.assists[a].status == Pending
            && RunCommand(db, r).0.assists == db.assists[a := db.assists[a].(status := Cancelled, version := db.assists[a].version + 1)]
  {
    CommitShape(db, r);
  }

  lemma CancelExecutedIff(db: Db, r: Request)
    requires r.command.CancelGuestRequest? && Unhindered(db, r)
    ensures var a := r.command.assist;
            RunCommand(db, r).1.Done? <==>
            a in db.assists && Some(db.assists[a].table) == r.command.capability && db.assists[a].source == GuestQr && db.assists[a].status == Pending
    ensures r.command.capability.Some? && r.command.assist in db.assists && db.assists[r.command.assist].table != r.command.capability.value ==>
              RunCommand(db, r) == (db, Failed(NotFound))
  {
  }

  /** An occupying command is executed if and only if the table is live, available and at the expected version, the party is not empty and its session id is new. */
  lemma OccupyExecutedIff(db: Db, r: Request)
    requires r.command.OccupyTable? && Unhindered(db, r)
    ensures var t := r.command.table;
            && (RunCommand(db, r).1.Done? <==>
                && t in db.occupancy && t in db.live && db.occupancy[t].status == Available && db.occupancy[t].version == r.command.expected
                && r.env.rowId !in db.sessions && (r.command.partySize.Some? ==> r.command.partySize.value > 0))
            && (t in db.occupancy && t in db.live && db.occupancy[t].status == Occupied ==> RunCommand(db, r) == (db, Failed(AlreadyOccupied)))
            && (t in db.occupancy && t in db.live && db.occupancy[t].status == Available && db.occupancy[t].version != r.command.expected ==>
                  RunCommand(db, r) == (db, Failed(VersionConflict)))
            && (t !in db.occupancy || t !in db.live ==> RunCommand(db, r) == (db, Failed(NotFound)))
  {
  }

  /**
   In a reachable state a clearing command is executed if and only if the table is live, occupied and at the
   expected version and its session began no later; that an occupied table lacks an open session never happens.
   */
  lemma ClearExecutedIff(steps: seq<Step>, r: Request)
    requires r.command.ClearTable? && Unhindered(Run(EMPTY, steps), r)
    ensures var db, t := Run(EMPTY, steps), r.command.table;
            && (RunCommand(db, r).1.Done? <==>
                && t in db.occupancy && t in db.live && db.occupancy[t].status == Occupied && db.occupancy[t].version == r.command.expected
                && forall s :: IsOpen(db, s) && db.sessions[s].table == t ==> db.sessions[s].startedAt <= r.env.began)
            && RunCommand(db, r).1 != Failed(NoActiveSession)
            && (t in db.occupancy && t in db.live && db.occupancy[t].status == Available ==> RunCommand(db, r) == (db, Failed(AlreadyAvailable)))
            && (t in db.occupancy && t in db.live && db.occupancy[t].status == Occupied && db.occupancy[t].version != r.command.expected ==>
                  RunCommand(db, r) == (db, Failed(VersionConflict)))
  {
    EveryRunAgrees(steps);
    var db, t := Run(EMPTY, steps), r.command.table;
    if t in db.occupancy { assert SessionsAgree(db, t); }
  }

  /** A staff request is made if and only if the table is live and the id is new: pending, for the table's current session, at version 1. It is never recorded or replayed. */
  lemma StaffRequestIff(db: Db, r: Request)
    requires r.command.RequestAssist? && !HasEvent(db.events, r.env.eventId) && r.command.source.Staff?
    ensures var t := r.command.table;
            if t in db.occupancy && t in db.live && r.env.rowId !in db.assists
            then RunCommand(db, r).1.Done?
                 && RunCommand(db, r).0.assists == db.assists[r.env.rowId := Assist(t, db.occupancy[t].session, Pending, r.env.began, r.command.source, None, 1)]
                 && RunCommand(db, r).0.idempotency == db.idempotency
            else RunCommand(db, r) == (db, Failed(if t in db.occupancy && t in db.live then StoreError else NotFound))
  {
    if RunCommand(db, r).1.Done? { CommitShape(db, r); }
  }

  const LETTERS := "abcdefghijklmnopqrstuvwxyz"
  const DIGITS := "0123456789"

  /** A small letter, and then small letters, digits and underscores: 2 to 64 characters. */
  ghost predicate IsWord(key: string) {
    2 <= |key| <= 64 && key[0] in LETTERS && forall i :: 1 <= i < |key| ==> key[i] in LETTERS || key[i] in DIGITS || key[i] == '_'
  }

  lemma LetterIff(c: char)
    ensures c in LETTERS <==> 'a' <= c <= 'z'
  {
    if 'a' <= c <= 'z' {
      var i := (c - 'a') as int;
      assert forall k :: 0 <= k < 26 ==> LETTERS[k] == 'a' + k as char;
      assert LETTERS[i] == c;
    }
  }

  lemma DigitIff(c: char)
    ensures c in DIGITS <==> '0' <= c <= '9'
  {
    if '0' <= c <= '9' {
      var i := (c - '0') as int;
      assert forall k :: 0 <= k < 10 ==> DIGITS[k] == '0' + k as char;
      assert DIGITS[i] == c;
    }
  }

  lemma KeysAreWords(key: string)
    ensures ValidActionKey(key) <==> IsWord(key)
  {
    if 2 <= |key| <= 64 {
      LetterIff(key[0]);
      forall i | 1 <= i < |key| ensures IsKeyChar(key[i]) <==> key[i] in LETTERS || key[i] in DIGITS || key[i] == '_' {
        LetterIff(key[i]);
        DigitIff(key[i]);
      }
    }
  }

  /** What a guest's first submission is refused with, or answered with unannounced, when it makes no new request. */
  lemma GuestAnswers(db: Db, r: Request)
    requires r.command.CreateGuestRequest? && Unhindered(db, r)
    ensures var key := r.command.actionKey; var answer := RunCommand(db, r);
            && (!IsWord(key) ==> answer == (db, Failed(ActionNotEnabled)))
            && (IsWord(key) && r.command.capability.None? ==> answer == (db, Failed(NotFound)))
            && (IsWord(key) && r.command.capability.Some? && key !in db.guestActions ==> answer == (db, Failed(ActionNotEnabled)))
            && (IsWord(key) && r.command.capability.Some? && key in db.guestActions ==>
                  var t := r.command.capability.value;
                  && (t !in db.occupancy || t !in db.live ==> answer == (db, Failed(NotFound)))
                  && (t in db.occupancy && t in db.live && db.occupancy[t].status == Available ==> answer == (db, Failed(NoActiveSession))))
  {
    KeysAreWords(r.command.actionKey);
  }

  /** A guest's bad key or capability is refused before the record of earlier commands is looked at. */
  lemma RefusedBeforeReplay(db: Db, r: Request)
    ensures r.command.CreateGuestRequest? && !IsWord(r.command.actionKey) ==> RunCommand(db, r) == (db, Failed(ActionNotEnabled))
    ensures r.command.CreateGuestRequest? && IsWord(r.command.actionKey) && r.command.capability.None? ==> RunCommand(db, r) == (db, Failed(NotFound))
    ensures r.command.CancelGuestRequest? && r.command.capability.None? ==> RunCommand(db, r) == (db, Failed(NotFound))
  {
    if r.command.CreateGuestRequest? { KeysAreWords(r.command.actionKey); }
  }

  /** A response that cannot be encoded keeps nothing of the command; nor does a guest's without an encoder. */
  lemma UnencodedKeepsNothing(db: Db, r: Request)
    requires !r.command.RequestAssist? && !RunCommand(db, r).1.Replayed?
    requires r.encoder.FailingEncoder? || (r.encoder.NoEncoder? && (r.command.CreateGuestRequest? || r.command.CancelGuestRequest?))
    ensures RunCommand(db, r).1.Failed? && RunCommand(db, r).0 == db
  {
  }

  /** The answer to an executed command is its value as the encoder puts it; without an encoder it is 200 and an empty object. */
  lemma AnswerIsEncoded(db: Db, r: Request)
    requires RunCommand(db, r).1.Done?
    ensures var answer := RunCommand(db, r).1;
            if r.encoder.Encoder? && !r.command.RequestAssist? then answer.status == r.encoder.status && answer.body == Encoded(answer.value)
            else answer.status == 200 && answer.body == EmptyObject
  {
  }

  /** The layout edits that commands depend on: a table is added once, available at version 1 and live, and goes and comes back with its occupancy. */
  lemma LayoutEdits(db: Db, t: Id, live: bool, keys: set<string>)
    ensures Apply(db, AddTable(t)) == if t in db.occupancy then db
                                      else db.(occupancy := db.occupancy[t := Occupancy(Available, None, 1)], live := db.live + {t})
    ensures var after := Apply(db, SetLive(t, live)); after == db.(live := after.live) && (t in after.live <==> live) && after.live - {t} == db.live - {t}
    ensures Apply(db, SetGuestActions(keys)) == db.(guestActions := keys)
  {
  }

  /** While a request of the action is pending, a guest gets that one, and nothing but the answer is written. */
  lemma PendingIsAnswered(db: Db, r: Request, t: Id, s: Id, key: string, id: Id)
    requires r.command == CreateGuestRequest(Some(t), key) && Unhindered(db, r) && ValidActionKey(key)
    requires key in db.guestActions && t in db.live && t in db.occupancy && db.occupancy[t].status == Occupied && db.occupancy[t].session == Some(s)
    requires IsPendingGuest(db, id, t, s, key) && OnePendingPerAction(db)
    ensures var (after, answer) := RunCommand(db, r);
            && answer == Done(AssistValue(id, db.assists[id]), r.encoder.status, Encoded(AssistValue(id, db.assists[id])))
            && after == db.(idempotency := after.idempotency) && after.idempotency.Keys == db.idempotency.Keys + {r.id}
  {
  }

  // ---------------------------------------------------------------- one command per version

  /** The row a versioned command is about. */
  datatype Row = TableRow(table: Id) | AssistRow(assist: Id)

  function VersionOf(db: Db, row: Row): int {
    match row
    case TableRow(t) => if t in db.occupancy then db.occupancy[t].version else 0
    case AssistRow(a) => if a in db.assists then db.assists[a].version else 0
  }

  /** The command is executed at this point of the run, on this row, with this expected version. */
  ghost predicate UsesVersion(db: Db, step: Step, row: Row, version: int) {
    && step.Submit? && RunCommand(db, step.request).1.Done?
    && match step.request.command
       case OccupyTable(t, expected, _) => row == TableRow(t) && version == expected
       case ClearTable(t, expected) => row == TableRow(t) && version == expected
       case ChangeAssist(a, expected, _) => row == AssistRow(a) && version == expected
       case _ => false
  }

  lemma UseRaisesVersion(db: Db, step: Step, row: Row, version: int)
    requires UsesVersion(db, step, row, version)
    ensures VersionOf(db, row) == version && VersionOf(Apply(db, step), row) == version + 1
  {
    var r := step.request;
    match r.command
    case OccupyTable(_, _, _) => OccupyEffect(db, r);
    case ClearTable(_, _) => ClearEffect(db, r);
    case _ => ChangeFoundItsVersion(db, r);
  }

  lemma VersionNeverFalls(db: Db, step: Step, row: Row)
    requires AssistsAgree(db) && forall t :: t in db.occupancy ==> db.occupancy[t].version >= 1
    ensures VersionOf(db, row) <= VersionOf(Apply(db, step), row)
    ensures forall t :: t in Apply(db, step).occupancy ==> Apply(db, step).occupancy[t].version >= 1
  {
    if step.Submit? && RunCommand(db, step.request).1.Done? {
      var r := step.request;
      if r.command.OccupyTable? { OccupyEffect(db, r); CommandExplained(db, r); }
      else if r.command.ClearTable? { ClearEffect(db, r); CommandExplained(db, r); }
      else { AssistCommandEffect(db, r); CommandExplained(db, r); }
    }
  }

  lemma {:induction false} EveryRunVersions(steps: seq<Step>)
    ensures forall t :: t in Run(EMPTY, steps).occupancy ==> Run(EMPTY, steps).occupancy[t].version >= 1
  {
    if steps != [] {
      EveryRunVersions(steps[..|steps| - 1]);
      EveryRunAssists(steps[..|steps| - 1]);
      VersionNeverFalls(Run(EMPTY, steps[..|steps| - 1]), steps[|steps| - 1], TableRow(NIL));
    }
  }

  lemma {:induction false} VersionsGrow(steps: seq<Step>, n: nat, row: Row)
    requires n <= |steps|
    ensures VersionOf(Run(EMPTY, steps[..n]), row) <= VersionOf(Run(EMPTY, steps), row)
  {
    if n == |steps| {
      assert steps[..n] == steps;
    } else {
      var last := |steps| - 1;
      assert steps[..last][..n] == steps[..n];
      VersionsGrow(steps[..last], n, row);
      EveryRunVersions(steps[..last]);
      EveryRunAssists(steps[..last]);
      VersionNeverFalls(Run(EMPTY, steps[..last]), steps[last], row);
    }
  }

  /** In every run at most one command is executed per row and expected version: of two callers who saw the same version, one is refused. */
  lemma OneCommandPerVersion(steps: seq<Step>, i: nat, j: nat, row: Row, version: int)
    requires i < j < |steps| && UsesVersion(Run(EMPTY, steps[..i]), steps[i], row, version)
    ensures !UsesVersion(Run(EMPTY, steps[..j]), steps[j], row, version)
  {
    UseRaisesVersion(Run(EMPTY, steps[..i]), steps[i], row, version);
    assert steps[..i + 1][..i] == steps[..i];
    assert steps[..j][..i + 1] == steps[..i + 1];
    VersionsGrow(steps[..j], i + 1, row);
    if UsesVersion(Run(EMPTY, steps[..j]), steps[j], row, version) {
      UseRaisesVersion(Run(EMPTY, steps[..j]), steps[j], row, version);
    }
  }
}
