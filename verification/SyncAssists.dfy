/** The active assists of a snapshot, advanced by the pages after its cursor. */
module SyncAssists {
  import opened Common
  import opened Operations
  import opened AssistHistory
  import S = Sync

  /** `loadActiveAssists`: the pending and acknowledged requests. */
  function ActiveAssists(db: Db): map<Id, AssistStatus> {
    map a | a in db.assists && !IsTerminal(db.assists[a].status) :: db.assists[a].status
  }

  /** A receiver shows the status of the latest event and drops ended requests. */
  function Receive(view: map<Id, AssistStatus>, e: Event): map<Id, AssistStatus> {
    if !e.entity.AssistEntity? || !e.data.AssistData? then view
    else if IsTerminal(e.data.assistStatus) then view - {e.entity.assist}
    else view[e.entity.assist := e.data.assistStatus]
  }

  function ReceiveAll(view: map<Id, AssistStatus>, messages: seq<Event>): map<Id, AssistStatus> {
    if messages == [] then view else Receive(ReceiveAll(view, messages[..|messages| - 1]), messages[|messages| - 1])
  }

  function Shown(view: map<Id, AssistStatus>, a: Id): Option<AssistStatus> {
    if a in view then Some(view[a]) else None
  }

  /** What the log alone shows of a request. */
  function ShownBy(trail: Trail): Option<AssistStatus> {
    match trail
    case At(s, _) => if IsTerminal(s) then None else Some(s)
    case _ => None
  }

  predicate Touches(e: Event, a: Id) {
    e.entity == AssistEntity(a)
  }

  /** From event `n` on, either nothing touched the request, or what is shown is what the log says. */
  lemma {:induction false} SuffixShows(view: map<Id, AssistStatus>, log: seq<Event>, n: nat, q: nat, a: Id)
    requires n <= q <= |log| && ReplayAssist(log[..q], a) != Broken
    ensures ReplayAssist(log[..n], a) != Broken
    ensures if forall i :: n <= i < q ==> !Touches(log[i], a)
            then Shown(ReceiveAll(view, log[n..q]), a) == Shown(view, a) && ReplayAssist(log[..q], a) == ReplayAssist(log[..n], a)
            else Shown(ReceiveAll(view, log[n..q]), a) == ShownBy(ReplayAssist(log[..q], a))
  {
    if n < q {
      assert log[..q][..q - 1] == log[..q - 1] && log[n..q][..q - 1 - n] == log[n..q - 1];
      SuffixShows(view, log, n, q - 1, a);
    } else {
      assert log[n..q] == [];
    }
  }

  lemma ActiveIsShown(steps: seq<Step>, a: Id)
    ensures ReplayAssist(Run(EMPTY, steps).events, a) != Broken
    ensures Shown(ActiveAssists(Run(EMPTY, steps)), a) == ShownBy(ReplayAssist(Run(EMPTY, steps).events, a))
  {
    EveryRunAssists(steps);
  }

  /**
   The cursor is read at `n`, the assists by a later statement at `k`; the pages after the cursor, in their
   order, bring the snapshot's active assists to the current ones.
   */
  lemma AssistsThenPages(steps: seq<Step>, n: nat, k: nat, cursor: S.Cursor, limit: nat, logs: seq<seq<Event>>, pages: seq<seq<Event>>)
    requires n <= k <= |steps| && S.InCommitOrder(Run(EMPTY, steps).events)
    requires S.IsCurrentCursor(Run(EMPTY, steps[..n]).events, cursor)
    requires S.Paged(logs, Run(EMPTY, steps).events, S.Resume(cursor), limit, pages) && S.EndsShort(logs, Run(EMPTY, steps).events, limit, pages)
    requires Run(EMPTY, steps[..n]).events <= logs[0]
    ensures ReceiveAll(ActiveAssists(Run(EMPTY, steps[..k])), S.Concat(pages)) == ActiveAssists(Run(EMPTY, steps))
  {
    S.PagesAfterCursor(steps, n, cursor, limit, logs, pages);
    var view, log := ActiveAssists(Run(EMPTY, steps[..k])), Run(EMPTY, steps).events;
    var from, mid := |Run(EMPTY, steps[..n]).events|, |Run(EMPTY, steps[..k]).events|;
    S.EventsGrow(steps, k);
    S.EventsGrow(steps[..k], n);
    assert steps[..k][..n] == steps[..n];
    var after, now := ReceiveAll(view, S.Concat(pages)), ActiveAssists(Run(EMPTY, steps));
    assert S.Concat(pages) == log[from..|log|] && log[..|log|] == log && log[..mid] == Run(EMPTY, steps[..k]).events;
    forall a ensures Shown(after, a) == Shown(now, a) {
      ActiveIsShown(steps, a);
      ActiveIsShown(steps[..k], a);
      SuffixShows(view, log, from, |log|, a);
      SuffixShows(view, log, mid, |log|, a);
    }
    ShownDecides(after, now);
  }

  lemma ShownDecides(a: map<Id, AssistStatus>, b: map<Id, AssistStatus>)
    requires forall x :: Shown(a, x) == Shown(b, x)
    ensures a == b
  {
    forall x ensures x in a <==> x in b { assert Shown(a, x) == Shown(b, x); }
    forall x | x in a ensures a[x] == b[x] { assert Shown(a, x) == Shown(b, x); }
  }
}
