/** The hub's message counters account for every message offered to a client. */
module HubCounters {
  import opened Common
  import opened HubProtocol

  /** Who has been handed what, read or not. */
  function HandedPairs(h: Hub): set<(ClientId, nat)> {
    set c, i | c in h.clients && i in Handed(h.clients[c]) :: (c, i)
  }

  /** Which call still has whom ahead of it. */
  function AheadPairs(h: Hub): set<(ClientId, CallId)> {
    set id, c | id in h.calls && c in h.calls[id].remaining :: (c, id)
  }

  function UncountedCalls(h: Hub): set<CallId> {
    set id | id in h.calls && !h.calls[id].counted
  }

  /** How many clients the publications of a run found registered when they began, taken together. */
  function Offered(steps: seq<Step>): nat {
    if steps == [] then 0
    else
      var last := steps[|steps| - 1];
      Offered(steps[..|steps| - 1]) + if last.BeginPublish? then |InScope(Run(steps[..|steps| - 1]).registered, last.scope)| else 0
  }

  /** Each message offered has been handed over, is still ahead of its call, or was counted as dropped. */
  ghost predicate Accounts(h: Hub, offered: nat) {
    && |HandedPairs(h)| + |AheadPairs(h)| + h.dropped == offered
    && h.backpressure == h.dropped
    && h.published + |UncountedCalls(h)| == |h.log|
  }

  /** Steps that hand nothing over and leave calls their clients. */
  lemma AccountsFrame(h: Hub, after: Hub, offered: nat)
    requires Accounts(h, offered) && after.dropped == h.dropped && after.backpressure == h.backpressure
    requires after.published == h.published && after.log == h.log
    requires forall c, i :: (c in after.clients && i in Handed(after.clients[c])) <==> (c in h.clients && i in Handed(h.clients[c]))
    requires forall id, c :: (id in after.calls && c in after.calls[id].remaining) <==> (id in h.calls && c in h.calls[id].remaining)
    requires forall id :: (id in after.calls && !after.calls[id].counted) <==> (id in h.calls && !h.calls[id].counted)
    ensures Accounts(after, offered)
  {
    assert HandedPairs(after) == HandedPairs(h);
    assert AheadPairs(after) == AheadPairs(h);
    assert UncountedCalls(after) == UncountedCalls(h);
  }

  function PairsOf(clients: set<ClientId>, id: CallId): set<(ClientId, CallId)> {
    set c | c in clients :: (c, id)
  }

  lemma {:induction false} PairsAreAsMany(clients: set<ClientId>, id: CallId)
    ensures |PairsOf(clients, id)| == |clients|
    decreases |clients|
  {
    if clients != {} {
      var c :| c in clients;
      PairsAreAsMany(clients - {c}, id);
      assert PairsOf(clients, id) == PairsOf(clients - {c}, id) + {(c, id)};
    }
  }

  /** A new call is another entry among the calls. */
  lemma CallAdded(h: Hub, after: Hub, id: CallId, call: Call)
    requires id !in h.calls && after.calls == h.calls[id := call] && !call.counted
    ensures AheadPairs(after) == AheadPairs(h) + PairsOf(call.remaining, id) && AheadPairs(h) !! PairsOf(call.remaining, id)
    ensures UncountedCalls(after) == UncountedCalls(h) + {id} && id !in UncountedCalls(h)
  {
    forall pair | pair in AheadPairs(h) ensures pair.1 != id {}
    forall pair ensures pair in AheadPairs(after) <==> pair in AheadPairs(h) || pair in PairsOf(call.remaining, id) {
      assert pair in PairsOf(call.remaining, id) <==> pair.1 == id && pair.0 in call.remaining;
    }
  }

  lemma BeginAccounts(h: Hub, scope: Scope, offered: nat)
    requires ClosingKnown(h) && Accounts(h, offered)
    ensures Accounts(Apply(h, BeginPublish(scope)), offered + |InScope(h.registered, scope)|)
  {
    var after, id, begun := Apply(h, BeginPublish(scope)), Publish(|h.log|), InScope(h.registered, scope);
    assert id !in h.calls;
    CallAdded(h, after, id, Call(begun, false, None, false));
    PairsAreAsMany(begun, id);
    Grown(h, after, begun, id, offered);
  }

  lemma Grown(h: Hub, after: Hub, begun: set<ClientId>, id: CallId, offered: nat)
    requires Accounts(h, offered) && after.clients == h.clients && after.dropped == h.dropped && after.backpressure == h.backpressure
    requires after.published == h.published && |after.log| == |h.log| + 1 && |PairsOf(begun, id)| == |begun|
    requires AheadPairs(after) == AheadPairs(h) + PairsOf(begun, id) && AheadPairs(h) !! PairsOf(begun, id)
    requires UncountedCalls(after) == UncountedCalls(h) + {id} && id !in UncountedCalls(h)
    ensures Accounts(after, offered + |begun|)
  {
    assert HandedPairs(after) == HandedPairs(h);
  }

  lemma CountAccounts(h: Hub, i: nat, offered: nat)
    requires Accounts(h, offered) && Publish(i) in h.calls && !h.calls[Publish(i)].counted
    ensures Accounts(Apply(h, CountPublished(i)), offered)
  {
    var after := Apply(h, CountPublished(i));
    assert HandedPairs(after) == HandedPairs(h);
    assert AheadPairs(after) == AheadPairs(h);
    assert UncountedCalls(after) == UncountedCalls(h) - {Publish(i)};
  }

  lemma SendLeavesAhead(h: Hub, i: nat, c: ClientId)
    requires CanSend(h, i, c)
    ensures AheadPairs(SendStep(h, i, c)) == AheadPairs(h) - {(c, Publish(i))} && (c, Publish(i)) in AheadPairs(h)
    ensures UncountedCalls(SendStep(h, i, c)) == UncountedCalls(h)
  {
  }

  lemma SendAccounts(h: Hub, i: nat, c: ClientId, offered: nat)
    requires HandedIsDue(h) && Accounts(h, offered) && CanSend(h, i, c)
    ensures Accounts(SendStep(h, i, c), offered)
  {
    var after := SendStep(h, i, c);
    SendLeavesAhead(h, i, c);
    if Accepts(h.clients[c]) {
      assert Handed(after.clients[c]) == Handed(h.clients[c]) + [i];
      assert (c, i) !in HandedPairs(h);
      assert HandedPairs(after) == HandedPairs(h) + {(c, i)};
    } else {
      assert HandedPairs(after) == HandedPairs(h);
    }
  }

  /** No section of `closeOnce` changes whom a call has ahead of it, or whether it is counted. */
  lemma CloseLeavesCalls(h: Hub, step: Step)
    requires step.EnterOnce? || step.AdvanceOnce?
    ensures var after := Apply(h, step);
            && after.calls.Keys == h.calls.Keys
            && (forall id :: id in h.calls ==> after.calls[id].remaining == h.calls[id].remaining && after.calls[id].counted == h.calls[id].counted)
            && after.dropped == h.dropped && after.backpressure == h.backpressure && after.published == h.published && after.log == h.log
  {
  }

  lemma CloseLeavesHanded(h: Hub, step: Step)
    requires step.EnterOnce? || step.AdvanceOnce?
    ensures var after := Apply(h, step);
            after.clients.Keys == h.clients.Keys && forall c :: c in h.clients ==> Handed(after.clients[c]) == Handed(h.clients[c])
  {
    if step.AdvanceOnce? && Closes(h, step.id) && h.calls[step.id].inside {
      AdvanceMovesClient(h, step.id, Apply(h, step), h.calls[step.id].closing.value);
    }
  }

  lemma CloseAccounts(h: Hub, step: Step, offered: nat)
    requires Accounts(h, offered) && (step.EnterOnce? || step.AdvanceOnce?)
    ensures Accounts(Apply(h, step), offered)
  {
    CloseLeavesCalls(h, step);
    CloseLeavesHanded(h, step);
    SameEntriesAccount(h, Apply(h, step), offered);
  }

  lemma SameEntriesAccount(h: Hub, after: Hub, offered: nat)
    requires Accounts(h, offered) && after.dropped == h.dropped && after.backpressure == h.backpressure
    requires after.published == h.published && after.log == h.log
    requires after.clients.Keys == h.clients.Keys && forall c :: c in h.clients ==> Handed(after.clients[c]) == Handed(h.clients[c])
    requires after.calls.Keys == h.calls.Keys
    requires forall id :: id in h.calls ==> after.calls[id].remaining == h.calls[id].remaining && after.calls[id].counted == h.calls[id].counted
    ensures Accounts(after, offered)
  {
    AccountsFrame(h, after, offered);
  }

  lemma ReceiveAccounts(h: Hub, c: ClientId, offered: nat)
    requires Accounts(h, offered)
    ensures Accounts(Apply(h, Receive(c)), offered)
  {
    var after := Apply(h, Receive(c));
    if c in h.clients && h.clients[c].queue != [] { assert Handed(after.clients[c]) == Handed(h.clients[c]); }
    AccountsFrame(h, after, offered);
  }

  lemma StepAccounts(h: Hub, step: Step, offered: nat)
    requires DeliveryAgrees(h) && Accounts(h, offered)
    ensures Accounts(Apply(h, step), offered + if step.BeginPublish? then |InScope(h.registered, step.scope)| else 0)
  {
    match step
    case BeginPublish(scope) => BeginAccounts(h, scope, offered);
    case CountPublished(i) => if Publish(i) in h.calls && !h.calls[Publish(i)].counted { CountAccounts(h, i, offered); }
    case Send(i, c) => if CanSend(h, i, c) { SendAccounts(h, i, c, offered); }
    case EnterOnce(_) => CloseAccounts(h, step, offered);
    case AdvanceOnce(_) => CloseAccounts(h, step, offered);
    case Receive(c) => ReceiveAccounts(h, c, offered);
    case Subscribe(_, _, _) => ClientEdgeAccounts(h, step, offered);
    case CountAccepted(_) => ClientEdgeAccounts(h, step, offered);
    case _ => CallEdgeAccounts(h, step, offered);
  }

  lemma ClientEdgeAccounts(h: Hub, step: Step, offered: nat)
    requires Accounts(h, offered) && (step.Subscribe? || step.CountAccepted?)
    ensures Accounts(Apply(h, step), offered)
  {
    AccountsFrame(h, Apply(h, step), offered);
  }

  lemma CallEdgeAccounts(h: Hub, step: Step, offered: nat)
    requires Accounts(h, offered) && (step.BeginUnsubscribe? || step.Return?)
    ensures Accounts(Apply(h, step), offered)
  {
    var after := Apply(h, step);
    assert after.clients == h.clients;
    AccountsFrame(h, after, offered);
  }

  // ---------------------------------------------------------------- when a message is dropped

  /** No client's buffer holds more than it was made for. */
  ghost predicate BuffersFit(h: Hub) {
    forall c :: c in h.clients ==> |h.clients[c].queue| <= h.clients[c].capacity
  }

  lemma StepFits(h: Hub, step: Step)
    requires BuffersFit(h)
    ensures BuffersFit(Apply(h, step))
  {
    if step.AdvanceOnce? && Closes(h, step.id) && h.calls[step.id].inside {
      AdvanceMovesClient(h, step.id, Apply(h, step), h.calls[step.id].closing.value);
    }
  }

  lemma {:induction false} EveryRunFits(steps: seq<Step>)
    ensures BuffersFit(Run(steps))
  {
    if steps != [] {
      EveryRunFits(steps[..|steps| - 1]);
      StepFits(Run(steps[..|steps| - 1]), steps[|steps| - 1]);
    }
  }

  /**
   In every run a send drops its message if and only if the client's buffer is full or the client is
   closed already; otherwise the message is the buffer's last.
   */
  lemma DroppedIffFull(steps: seq<Step>, i: nat, c: ClientId)
    requires CanSend(Run(steps), i, c)
    ensures var h, after := Run(steps), Apply(Run(steps), Send(i, c)); var client := h.clients[c];
            if client.closed || |client.queue| == client.capacity
            then after.clients == h.clients && after.dropped == h.dropped + 1 && after.calls[Publish(i)].closing == Some(c)
            else after.clients[c].queue == client.queue + [i] && after.dropped == h.dropped && after.calls[Publish(i)].closing == None
  {
    EveryRunFits(steps);
  }

  /** In every run each message offered to a client is handed over, still ahead of its call, or counted as dropped once. */
  lemma {:induction false} EveryRunAccounts(steps: seq<Step>)
    ensures Accounts(Run(steps), Offered(steps))
  {
    if steps == [] {
      assert HandedPairs(INITIAL) == {} && AheadPairs(INITIAL) == {} && UncountedCalls(INITIAL) == {};
    } else {
      EveryRunAccounts(steps[..|steps| - 1]);
      EveryRunAgrees(steps[..|steps| - 1]);
      StepAccounts(Run(steps[..|steps| - 1]), steps[|steps| - 1], Offered(steps[..|steps| - 1]));
    }
  }

  /** Once no call is in flight, messages handed over and messages dropped are those offered, and every publication is counted. */
  lemma QuietAccounts(steps: seq<Step>)
    requires Quiet(Run(steps))
    ensures var h := Run(steps); |HandedPairs(h)| + h.dropped == Offered(steps) && h.published == |h.log| && h.backpressure == h.dropped
  {
    EveryRunAccounts(steps);
    assert AheadPairs(Run(steps)) == {} && UncountedCalls(Run(steps)) == {};
  }
}
