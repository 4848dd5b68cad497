/**
 Catch-up by snapshot and cursor: `internal/realtime/sync.go` and the two sync endpoints of
 `internal/realtime/http.go`. A cursor is a pair (occurredAt, eventId), and pages are read in that order.
 */
module Sync {
  import opened Common
  import opened Operations
  import opened TableHistory

  datatype Cursor = Cursor(occurredAt: Time, event: Id)

  /** The zero `Cursor{}`; 0 is the zero time. */
  const START := Cursor(0, NIL)

  predicate Precedes(a: Cursor, b: Cursor) {
    a.occurredAt < b.occurredAt || (a.occurredAt == b.occurredAt && a.event < b.event)
  }

  function KeyOf(e: Event): Cursor {
    Cursor(e.occurredAt, e.id)
  }

  /** The order of keys: by time first, and total, so that no two different keys share a place. */
  lemma KeysAreOrdered(a: Cursor, b: Cursor, c: Cursor)
    ensures a.occurredAt < b.occurredAt ==> Precedes(a, b)
    ensures a != b <==> Precedes(a, b) || Precedes(b, a)
    ensures !(Precedes(a, b) && Precedes(b, a))
    ensures Precedes(a, b) && Precedes(b, c) ==> Precedes(a, c)
  {
  }

  function CursorFrom(e: Event): Cursor {
    if e.id == NIL then START else KeyOf(e)
  }

  /** A nil cursor time selects everything. */
  predicate IsAfter(e: Event, after: Cursor) {
    after.occurredAt == 0 || Precedes(after, KeyOf(e))
  }

  // ---------------------------------------------------------------- the wire form

  datatype Wire = Blank | Token(cursor: Cursor)

  predicate Complete(c: Cursor) {
    c.occurredAt != 0 && c.event != NIL
  }

  function Encode(c: Cursor): Wire {
    if Complete(c) then Token(c) else Blank
  }

  function Decode(w: Wire): Result<Cursor, ()> {
    match w
    case Blank => Ok(START)
    case Token(c) => if Complete(c) then Ok(c) else Err(())
  }

  /** The cursor a client gets back by sending on the token it was given. */
  function Resume(c: Cursor): Cursor {
    match Decode(Encode(c)) { case Ok(back) => back case Err(_) => START }
  }

  // ---------------------------------------------------------------- queries

  /** Key order is commit order, and every event carries a real time and id. */
  ghost predicate InCommitOrder(log: seq<Event>) {
    && (forall i :: 0 <= i < |log| ==> Complete(KeyOf(log[i])))
    && (forall i, j :: 0 <= i < j < |log| ==> Precedes(KeyOf(log[i]), KeyOf(log[j])))
  }

  /** The rows of `WHERE key > after ORDER BY key LIMIT limit`, for a log in any order. */
  ghost predicate IsPage(log: seq<Event>, after: Cursor, limit: nat, rows: seq<Event>) {
    && |rows| <= limit
    && (forall i :: 0 <= i < |rows| ==> rows[i] in log && IsAfter(rows[i], after))
    && (forall i, j :: 0 <= i < j < |rows| ==> Precedes(KeyOf(rows[i]), KeyOf(rows[j])))
    && (forall e :: e in log && IsAfter(e, after) && e !in rows ==> |rows| == limit && (rows != [] ==> Precedes(KeyOf(rows[|rows| - 1]), KeyOf(e))))
  }

  /** The row of `ORDER BY key DESC LIMIT 1`. */
  ghost predicate IsCurrentCursor(log: seq<Event>, c: Cursor) {
    if log == [] then c == START
    else exists e :: e in log && c == CursorFrom(e) && forall f :: f in log && f != e ==> Precedes(KeyOf(f), KeyOf(e))
  }

  function NextCursor(after: Cursor, rows: seq<Event>): Cursor {
    if rows == [] then after else CursorFrom(rows[|rows| - 1])
  }

  /** The scan loop: one message per row, and the cursor of the last row read. */
  method LoadEventsAfter(rows: seq<Event>, after: Cursor) returns (messages: seq<Event>, next: Cursor)
    ensures messages == rows && next == NextCursor(after, rows)
  {
    messages, next := [], after;
    for i := 0 to |rows|
      invariant messages == rows[..i] && next == NextCursor(after, rows[..i])
    {
      messages := messages + [rows[i]];
      next := CursorFrom(rows[i]);
    }
  }

  /** `after` is the cursor of a reader that has read exactly the first `k` events. */
  ghost predicate Positioned(log: seq<Event>, after: Cursor, k: nat) {
    k <= |log| && after == if k == 0 then START else KeyOf(log[k - 1])
  }

  lemma AfterIsSuffix(log: seq<Event>, after: Cursor, k: nat, i: nat)
    requires InCommitOrder(log) && Positioned(log, after, k) && i < |log|
    ensures IsAfter(log[i], after) <==> k <= i
  {
    if k > 0 {
      assert Complete(KeyOf(log[k - 1]));
      if i < k - 1 { assert Precedes(KeyOf(log[i]), KeyOf(log[k - 1])); }
      if k - 1 < i { assert Precedes(KeyOf(log[k - 1]), KeyOf(log[i])); }
    }
  }

  lemma KeyOrderIsIndexOrder(log: seq<Event>)
    requires InCommitOrder(log)
    ensures forall i, j :: 0 <= i < |log| && 0 <= j < |log| ==> (Precedes(KeyOf(log[i]), KeyOf(log[j])) <==> i < j)
  {
    forall i, j | 0 <= i < |log| && 0 <= j < |log| ensures Precedes(KeyOf(log[i]), KeyOf(log[j])) <==> i < j {
      if j < i { assert Precedes(KeyOf(log[j]), KeyOf(log[i])); }
    }
  }

  /** In a log kept in commit order a page is the next slice. */
  lemma PageIsSlice(log: seq<Event>, after: Cursor, k: nat, limit: nat, rows: seq<Event>)
    requires InCommitOrder(log) && Positioned(log, after, k) && IsPage(log, after, limit, rows)
    ensures k + |rows| <= |log| && rows == log[k..k + |rows|]
    ensures |rows| < limit ==> k + |rows| == |log|
  {
    SliceOf(log, after, k, limit, rows, |rows|);
    assert rows == log[k..k + |rows|];
    if k + |rows| < |log| {
      ShortPageIsLast(log, after, k, limit, rows);
    }
  }

  lemma ShortPageIsLast(log: seq<Event>, after: Cursor, k: nat, limit: nat, rows: seq<Event>)
    requires InCommitOrder(log) && Positioned(log, after, k) && IsPage(log, after, limit, rows)
    requires k + |rows| < |log| && rows == log[k..k + |rows|]
    ensures |rows| == limit
  {
    var e := log[k + |rows|];
    AfterIsSuffix(log, after, k, k + |rows|);
    forall j | 0 <= j < |rows| ensures rows[j] != e {
      assert Precedes(KeyOf(log[k + j]), KeyOf(e));
    }
  }

  lemma {:induction false} SliceOf(log: seq<Event>, after: Cursor, k: nat, limit: nat, rows: seq<Event>, n: nat)
    requires InCommitOrder(log) && Positioned(log, after, k) && IsPage(log, after, limit, rows) && n <= |rows|
    ensures k + n <= |log| && forall j :: 0 <= j < n ==> rows[j] == log[k + j]
  {
    if n > 0 {
      SliceOf(log, after, k, limit, rows, n - 1);
      assert rows[n - 1] in log;
      var i :| 0 <= i < |log| && log[i] == rows[n - 1];
      NextRow(log, after, k, limit, rows, n - 1, i);
    }
  }

  /** If the first `m` rows are the slice from `k`, the next row is the next event. */
  lemma NextRow(log: seq<Event>, after: Cursor, k: nat, limit: nat, rows: seq<Event>, m: nat, i: nat)
    requires InCommitOrder(log) && Positioned(log, after, k) && IsPage(log, after, limit, rows) && m < |rows|
    requires k + m <= |log| && forall j :: 0 <= j < m ==> rows[j] == log[k + j]
    requires i < |log| && log[i] == rows[m]
    ensures i == k + m
  {
    KeyOrderIsIndexOrder(log);
    AfterIsSuffix(log, after, k, i);
    assert m > 0 ==> Precedes(KeyOf(rows[m - 1]), KeyOf(rows[m]));
    assert k + m <= i;
    AfterIsSuffix(log, after, k, k + m);
    assert forall j :: m < j < |rows| ==> Precedes(KeyOf(rows[m]), KeyOf(rows[j]));
  }

  // ---------------------------------------------------------------- paging while the log grows

  /** Page after page, each read from a log that extends the one before; `last` extends them all. */
  ghost predicate Paged(logs: seq<seq<Event>>, last: seq<Event>, after: Cursor, limit: nat, pages: seq<seq<Event>>) {
    && |logs| == |pages|
    && (pages != [] ==>
          && logs[0] <= last
          && (|logs| > 1 ==> |logs[0]| <= |logs[1]|)
          && IsPage(logs[0], after, limit, pages[0])
          && Paged(logs[1..], last, Resume(NextCursor(after, pages[0])), limit, pages[1..]))
  }

  /** The last page was read from `last` and came back short. */
  ghost predicate EndsShort(logs: seq<seq<Event>>, last: seq<Event>, limit: nat, pages: seq<seq<Event>>) {
    pages != [] && |logs| == |pages| && logs[|logs| - 1] == last && |pages[|pages| - 1]| < limit
  }

  function Concat(pages: seq<seq<Event>>): seq<Event> {
    if pages == [] then [] else pages[0] + Concat(pages[1..])
  }

  function TotalLength(pages: seq<seq<Event>>): nat {
    if pages == [] then 0 else |pages[0]| + TotalLength(pages[1..])
  }

  /** Consecutive slices of `last` from position `k`. */
  ghost predicate Slices(pages: seq<seq<Event>>, last: seq<Event>, k: nat) {
    pages != [] ==> k + |pages[0]| <= |last| && pages[0] == last[k..k + |pages[0]|] && Slices(pages[1..], last, k + |pages[0]|)
  }

  lemma {:induction false} SlicesConcat(pages: seq<seq<Event>>, last: seq<Event>, k: nat)
    requires k <= |last| && Slices(pages, last, k)
    ensures k + TotalLength(pages) <= |last| && Concat(pages) == last[k..k + TotalLength(pages)]
  {
    if pages != [] {
      SlicesConcat(pages[1..], last, k + |pages[0]|);
    }
  }

  lemma {:induction false} PagesAreSlices(logs: seq<seq<Event>>, last: seq<Event>, after: Cursor, k: nat, limit: nat, pages: seq<seq<Event>>)
    requires InCommitOrder(last) && Paged(logs, last, after, limit, pages)
    requires Positioned(last, after, k) && (logs != [] ==> k <= |logs[0]|)
    ensures Slices(pages, last, k)
    ensures EndsShort(logs, last, limit, pages) ==> k + TotalLength(pages) == |last|
  {
    if pages != [] {
      FirstPage(logs[0], last, after, k, limit, pages[0]);
      PagesAreSlices(logs[1..], last, Resume(NextCursor(after, pages[0])), k + |pages[0]|, limit, pages[1..]);
      if |pages| > 1 {
        assert EndsShort(logs, last, limit, pages) ==> EndsShort(logs[1..], last, limit, pages[1..]);
      } else {
        assert TotalLength(pages[1..]) == 0;
      }
    }
  }

  /**
   Paging from position `k` yields the following events of the final log, each once and in order;
   a final short page means that nothing is left.
   */
  lemma PagingIsComplete(logs: seq<seq<Event>>, last: seq<Event>, after: Cursor, k: nat, limit: nat, pages: seq<seq<Event>>)
    requires InCommitOrder(last) && Paged(logs, last, after, limit, pages)
    requires Positioned(last, after, k) && (logs != [] ==> k <= |logs[0]|)
    ensures k + TotalLength(pages) <= |last| && Concat(pages) == last[k..k + TotalLength(pages)]
    ensures EndsShort(logs, last, limit, pages) ==> Concat(pages) == last[k..]
  {
    PagesAreSlices(logs, last, after, k, limit, pages);
    SlicesConcat(pages, last, k);
  }

  lemma FirstPage(log: seq<Event>, last: seq<Event>, after: Cursor, k: nat, limit: nat, rows: seq<Event>)
    requires InCommitOrder(last) && log <= last && k <= |log| && Positioned(last, after, k) && IsPage(log, after, limit, rows)
    ensures k + |rows| <= |log| && rows == last[k..k + |rows|] && Positioned(last, Resume(NextCursor(after, rows)), k + |rows|)
    ensures |rows| < limit ==> k + |rows| == |log|
  {
    assert forall i :: 0 <= i < |log| ==> log[i] == last[i];
    PageIsSlice(log, after, k, limit, rows);
    assert rows != [] ==> rows[|rows| - 1] == last[k + |rows| - 1] && Complete(KeyOf(last[k + |rows| - 1]));
    assert k > 0 ==> Complete(KeyOf(last[k - 1]));
  }

  /** With a limit of at least one, full pages use the log up, so paging a finished log comes to a short page. */
  lemma {:induction false} FullPagesUseTheLogUp(pages: seq<seq<Event>>, last: seq<Event>, k: nat, limit: nat)
    requires limit >= 1 && k <= |last| && Slices(pages, last, k)
    requires forall i :: 0 <= i < |pages| ==> |pages[i]| == limit
    ensures k + |pages| <= |last|
  {
    if pages != [] {
      FullPagesUseTheLogUp(pages[1..], last, k + |pages[0]|, limit);
    }
  }

  /** In a log kept in commit order the snapshot cursor stands at the end. */
  lemma SnapshotCursorAtEnd(log: seq<Event>, c: Cursor)
    requires InCommitOrder(log) && IsCurrentCursor(log, c)
    ensures Positioned(log, Resume(c), |log|)
  {
    if log != [] {
      var e :| e in log && c == CursorFrom(e) && forall f :: f in log && f != e ==> Precedes(KeyOf(f), KeyOf(e));
      var top := log[|log| - 1];
      var i :| 0 <= i < |log| && log[i] == e;
      assert i < |log| - 1 ==> Precedes(KeyOf(e), KeyOf(top));
    }
  }

  // ---------------------------------------------------------------- the client's view

  /** The occupancy part of a location snapshot: the live tables. */
  function TableStates(db: Db): map<Id, Occupancy> {
    map t | t in db.occupancy && t in db.live :: db.occupancy[t]
  }

  /** A live table of the layout. */
  predicate OnTheFloor(db: Db, t: Id) {
    t in db.occupancy && t in db.live
  }

  /** After any run the snapshot shows a table if and only if it is on the floor, and shows of it what the log alone says. */
  lemma SnapshotIsTheFloor(steps: seq<Step>, t: Id)
    ensures var db := Run(EMPTY, steps); var view := TableStates(db);
            && (t in view <==> OnTheFloor(db, t))
            && (t in view ==> Some(view[t]) == Replay(db.events, t))
  {
    EveryRunAgrees(steps);
  }

  function OccupancyOf(e: Event): Occupancy
    requires e.data.TableData?
  {
    Occupancy(e.data.status, if e.data.status == Occupied then Some(e.data.session) else None, e.version)
  }

  /** A client keeps the update with the higher version and ignores the rest. */
  function Receive(view: map<Id, Occupancy>, e: Event): map<Id, Occupancy> {
    if e.entity.TableEntity? && e.data.TableData? && e.entity.table in view && e.version > view[e.entity.table].version
    then view[e.entity.table := OccupancyOf(e)] else view
  }

  function ReceiveAll(view: map<Id, Occupancy>, messages: seq<Event>): map<Id, Occupancy> {
    if messages == [] then view else ReceiveAll(Receive(view, messages[0]), messages[1..])
  }

  /** An event of `t` at the newest version carries the newest occupancy; older ones have lower versions. */
  ghost predicate Faithful(e: Event, t: Id, o: Occupancy) {
    e.entity == TableEntity(t) ==> e.data.TableData? && e.version <= o.version && (e.version == o.version ==> OccupancyOf(e) == o)
  }

  /** From a replayed prefix to a replayed whole: either nothing happened to `t` or some event carries its final version. */
  lemma {:induction false} SuffixDecides(log: seq<Event>, n: nat, t: Id)
    requires n <= |log| && Replay(log, t).Some?
    ensures Replay(log[..n], t).Some?
    ensures var o0, o := Replay(log[..n], t).value, Replay(log, t).value;
            && o0.version <= o.version
            && (o0.version == o.version ==> o0 == o)
            && (o0.version < o.version ==> exists i :: n <= i < |log| && log[i].entity == TableEntity(t) && log[i].version == o.version)
    ensures forall i :: n <= i < |log| ==> Faithful(log[i], t, Replay(log, t).value)
  {
    if n == |log| {
      assert log[..n] == log;
    } else {
      var last := |log| - 1;
      assert log[..last][..n] == log[..n];
      SuffixDecides(log[..last], n, t);
      var p := log[..last];
      forall i | n <= i < last ensures Faithful(log[i], t, Replay(log, t).value) {
        assert Faithful(p[i], t, Replay(p, t).value);
      }
      if Replay(p, t).value.version == Replay(log, t).value.version && Replay(log[..n], t).value.version < Replay(log, t).value.version {
        var i :| n <= i < |p| && p[i].entity == TableEntity(t) && p[i].version == Replay(p, t).value.version;
        assert log[i] == p[i];
      }
    }
  }

  /** Delivering faithful messages never overshoots, and reaches the newest occupancy once it is among them. */
  lemma {:induction false} ReceiveSettles(view: map<Id, Occupancy>, messages: seq<Event>, t: Id, o: Occupancy)
    requires t in view && view[t].version <= o.version && (view[t].version == o.version ==> view[t] == o)
    requires forall e :: e in messages ==> Faithful(e, t, o)
    requires view[t] == o || exists e :: e in messages && e.entity == TableEntity(t) && e.version == o.version
    ensures t in ReceiveAll(view, messages) && ReceiveAll(view, messages)[t] == o
  {
    if messages != [] {
      assert Faithful(messages[0], t, o);
      ReceiveSettles(Receive(view, messages[0]), messages[1..], t, o);
    }
  }

  lemma {:induction false} EventsGrow(steps: seq<Step>, n: nat)
    requires n <= |steps|
    ensures Run(EMPTY, steps[..n]).events <= Run(EMPTY, steps).events
  {
    if n == |steps| {
      assert steps[..n] == steps;
    } else {
      var last := |steps| - 1;
      assert steps[..last][..n] == steps[..n];
      EventsGrow(steps[..last], n);
      var db := Run(EMPTY, steps[..last]);
      if steps[last].Submit? && RunCommand(db, steps[last].request).1.Done? {
        CommitShape(db, steps[last].request);
        ExecuteKeepsLog(db, steps[last].request);
      }
    }
  }

  lemma {:induction false} ReceiveKeepsTables(view: map<Id, Occupancy>, messages: seq<Event>)
    ensures ReceiveAll(view, messages).Keys == view.Keys
    decreases |messages|
  {
    if messages != [] { ReceiveKeepsTables(Receive(view, messages[0]), messages[1..]); }
  }

  /**
   A snapshot advanced by committed events ends at the current occupancy of every table that was on the floor
   when it was taken, in whatever order they arrive and however often they repeat, as long as none of the
   later ones is missing; and it shows no other table.
   */
  lemma DeliveryInAnyOrder(steps: seq<Step>, n: nat, messages: seq<Event>)
    requires n <= |steps|
    requires forall e :: e in messages ==> e in Run(EMPTY, steps).events
    requires forall i :: |Run(EMPTY, steps[..n]).events| <= i < |Run(EMPTY, steps).events| ==> Run(EMPTY, steps).events[i] in messages
    ensures var after, db := ReceiveAll(TableStates(Run(EMPTY, steps[..n])), messages), Run(EMPTY, steps);
            forall t :: (t in after <==> OnTheFloor(Run(EMPTY, steps[..n]), t)) && (t in after ==> t in db.occupancy && after[t] == db.occupancy[t])
  {
    ReceiveKeepsTables(TableStates(Run(EMPTY, steps[..n])), messages);
    var db0, db := Run(EMPTY, steps[..n]), Run(EMPTY, steps);
    var view := TableStates(db0);
    EveryRunAgrees(steps[..n]);
    EveryRunAgrees(steps);
    EventsGrow(steps, n);
    RowsStay(steps, n);
    forall t | t in view ensures t in ReceiveAll(view, messages) && ReceiveAll(view, messages)[t] == db.occupancy[t] {
      var log := db.events;
      assert log[..|db0.events|] == db0.events;
      SuffixDecides(log, |db0.events|, t);
      SuffixDecides(log, 0, t);
      forall e | e in messages ensures Faithful(e, t, db.occupancy[t]) {
        var i :| 0 <= i < |log| && log[i] == e;
      }
      ReceiveSettles(view, messages, t, db.occupancy[t]);
    }
  }

  lemma {:induction false} RowsStay(steps: seq<Step>, n: nat)
    requires n <= |steps|
    ensures Run(EMPTY, steps[..n]).occupancy.Keys <= Run(EMPTY, steps).occupancy.Keys
  {
    if n == |steps| {
      assert steps[..n] == steps;
    } else {
      var last := |steps| - 1;
      assert steps[..last][..n] == steps[..n];
      RowsStay(steps[..last], n);
      RowsStayOnce(Run(EMPTY, steps[..last]), steps[last]);
    }
  }

  lemma RowsStayOnce(db: Db, step: Step)
    ensures db.occupancy.Keys <= Apply(db, step).occupancy.Keys
  {
    if step.Submit? && RunCommand(db, step.request).1.Done? {
      var r := step.request;
      if r.command.OccupyTable? { OccupyEffect(db, r); }
      else if r.command.ClearTable? { ClearEffect(db, r); }
      else { AssistCommandEffect(db, r); }
    }
  }

  /**
   Snapshot, then pages after its cursor until one comes back short: the pages are exactly the events
   after the cursor, each once and in order, and they bring every table on the floor to its current occupancy. The
   cursor is read at `n` and the tables, by a later statement of the same transaction, at `m`.
   */
  lemma SnapshotThenPages(steps: seq<Step>, n: nat, m: nat, cursor: Cursor, limit: nat, logs: seq<seq<Event>>, pages: seq<seq<Event>>)
    requires n <= m <= |steps| && InCommitOrder(Run(EMPTY, steps).events)
    requires IsCurrentCursor(Run(EMPTY, steps[..n]).events, cursor)
    requires Paged(logs, Run(EMPTY, steps).events, Resume(cursor), limit, pages) && EndsShort(logs, Run(EMPTY, steps).events, limit, pages)
    requires Run(EMPTY, steps[..n]).events <= logs[0]
    ensures var after, db := ReceiveAll(TableStates(Run(EMPTY, steps[..m])), Concat(pages)), Run(EMPTY, steps);
            && |Run(EMPTY, steps[..n]).events| <= |db.events| && Concat(pages) == db.events[|Run(EMPTY, steps[..n]).events|..]
            && forall t :: (t in after <==> OnTheFloor(Run(EMPTY, steps[..m]), t)) && (t in after ==> t in db.occupancy && after[t] == db.occupancy[t])
  {
    PagesAfterCursor(steps, n, cursor, limit, logs, pages);
    var start, db := |Run(EMPTY, steps[..n]).events|, Run(EMPTY, steps);
    var messages := Concat(pages);
    EventsGrow(steps[..m], n);
    assert steps[..m][..n] == steps[..n];
    forall i | |Run(EMPTY, steps[..m]).events| <= i < |db.events| ensures db.events[i] in messages {
      assert messages[i - start] == db.events[i];
    }
    DeliveryInAnyOrder(steps, m, messages);
  }

  /** The pages alone: exactly the events behind the cursor. */
  lemma PagesAfterCursor(steps: seq<Step>, n: nat, cursor: Cursor, limit: nat, logs: seq<seq<Event>>, pages: seq<seq<Event>>)
    requires n <= |steps| && InCommitOrder(Run(EMPTY, steps).events)
    requires IsCurrentCursor(Run(EMPTY, steps[..n]).events, cursor)
    requires Paged(logs, Run(EMPTY, steps).events, Resume(cursor), limit, pages) && EndsShort(logs, Run(EMPTY, steps).events, limit, pages)
    requires Run(EMPTY, steps[..n]).events <= logs[0]
    ensures |Run(EMPTY, steps[..n]).events| <= |Run(EMPTY, steps).events|
    ensures Concat(pages) == Run(EMPTY, steps).events[|Run(EMPTY, steps[..n]).events|..]
  {
    var db0, db := Run(EMPTY, steps[..n]), Run(EMPTY, steps);
    EventsGrow(steps, n);
    SnapshotCursorAtEnd(db0.events, cursor);
    PagingIsComplete(logs, db.events, Resume(cursor), |db0.events|, limit, pages);
  }
}
