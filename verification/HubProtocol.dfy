/**
 The realtime hub under concurrency. Every step is one section of `internal/realtime/hub.go` that
 runs under a lock, one atomic counter update, or one read from a client's channel; calls in
 flight interleave freely. Messages are named by their place in the log of publications.
 */
module HubProtocol {
  import opened Common

  type ClientId = nat

  datatype Scope = Scope(organisation: nat, location: nat)

  /** How far the client's `closeOnce` has come. */
  datatype Stage = Open | Removing | Closing | Counting | Gone

  datatype Client = Client(scope: Scope, capacity: nat, since: nat, stage: Stage, closed: bool, channelClosed: bool,
                           queue: seq<nat>, received: seq<nat>, counted: bool)

  datatype CallId = Publish(message: nat) | Unsubscribe(call: nat)

  /** A call in flight: clients still to be sent to, and a client it is unsubscribing, inside `closeOnce` or before it. */
  datatype Call = Call(remaining: set<ClientId>, counted: bool, closing: Option<ClientId>, inside: bool)

  datatype Hub = Hub(clients: map<ClientId, Client>, registered: map<Scope, set<ClientId>>, log: seq<Scope>, calls: map<CallId, Call>,
                     accepted: nat, closed: nat, published: nat, dropped: nat, backpressure: nat, panicked: bool)

  const INITIAL := Hub(map[], map[], [], map[], 0, 0, 0, 0, 0, false)

  const DEFAULT_BUFFER: nat := 32

  datatype Step =
    | Subscribe(client: ClientId, scope: Scope, buffer: int)
    | CountAccepted(client: ClientId)
    | BeginPublish(scope: Scope)
    | CountPublished(message: nat)
    | Send(message: nat, client: ClientId)
    | BeginUnsubscribe(call: nat, client: ClientId)
    | EnterOnce(id: CallId)
    | AdvanceOnce(id: CallId)
    | Return(id: CallId)
    | Receive(client: ClientId)

  function InScope(registered: map<Scope, set<ClientId>>, scope: Scope): set<ClientId> {
    if scope in registered then registered[scope] else {}
  }

  /** `delete` on the inner map, and on the outer one when the inner becomes empty. */
  function Deregister(registered: map<Scope, set<ClientId>>, scope: Scope, c: ClientId): map<Scope, set<ClientId>> {
    if scope !in registered then registered
    else if registered[scope] - {c} == {} then registered - {scope}
    else registered[scope := registered[scope] - {c}]
  }

  function SubscribeStep(h: Hub, c: ClientId, scope: Scope, buffer: int): Hub {
    var capacity := if buffer <= 0 then DEFAULT_BUFFER else buffer;
    h.(clients := h.clients[c := Client(scope, capacity, |h.log|, Open, false, false, [], [], false)],
       registered := h.registered[scope := InScope(h.registered, scope) + {c}])
  }

  predicate Accepts(c: Client) {
    !c.closed && |c.queue| < c.capacity
  }

  /** `trySend` under the client's lock; a send on a closed channel would panic. */
  function SendStep(h: Hub, i: nat, c: ClientId): Hub
    requires Publish(i) in h.calls && c in h.clients
  {
    var call, client := h.calls[Publish(i)], h.clients[c];
    if Accepts(client) then
      h.(clients := h.clients[c := client.(queue := client.queue + [i])],
         calls := h.calls[Publish(i) := call.(remaining := call.remaining - {c})],
         panicked := h.panicked || client.channelClosed)
    else
      h.(calls := h.calls[Publish(i) := call.(remaining := call.remaining - {c}, closing := Some(c), inside := false)],
         dropped := h.dropped + 1, backpressure := h.backpressure + 1)
  }

  /** `Once.Do`: the first caller goes in, a later one waits until the first is out. */
  function EnterStep(h: Hub, id: CallId): Hub
    requires id in h.calls && h.calls[id].closing.Some? && h.calls[id].closing.value in h.clients
  {
    var call := h.calls[id];
    var c := call.closing.value;
    match h.clients[c].stage
    case Open => h.(clients := h.clients[c := h.clients[c].(stage := Removing)], calls := h.calls[id := call.(inside := true)])
    case Gone => h.(calls := h.calls[id := call.(closing := None)])
    case _ => h
  }

  /** Inside `closeOnce`: leave the map, close the channels, count; a second close would panic. */
  function AdvanceStep(h: Hub, id: CallId): Hub
    requires id in h.calls && h.calls[id].closing.Some? && h.calls[id].closing.value in h.clients
  {
    var call := h.calls[id];
    var c := call.closing.value;
    var client := h.clients[c];
    match client.stage
    case Removing =>
      h.(registered := Deregister(h.registered, client.scope, c), clients := h.clients[c := client.(stage := Closing)])
    case Closing =>
      if client.closed then h.(clients := h.clients[c := client.(stage := Counting)])
      else h.(clients := h.clients[c := client.(stage := Counting, closed := true, channelClosed := true)],
              panicked := h.panicked || client.channelClosed)
    case Counting =>
      h.(clients := h.clients[c := client.(stage := Gone)], closed := h.closed + 1,
         calls := h.calls[id := call.(closing := None, inside := false)])
    case _ => h
  }

  predicate CanSend(h: Hub, i: nat, c: ClientId) {
    && Publish(i) in h.calls && c in h.clients
    && h.calls[Publish(i)].counted && h.calls[Publish(i)].closing.None? && c in h.calls[Publish(i)].remaining
  }

  predicate Closes(h: Hub, id: CallId) {
    id in h.calls && h.calls[id].closing.Some? && h.calls[id].closing.value in h.clients
  }

  predicate Finished(call: Call) {
    call.counted && call.remaining == {} && call.closing.None?
  }

  /** A step that is not enabled changes nothing. */
  function Apply(h: Hub, step: Step): Hub {
    match step
    case Subscribe(c, scope, buffer) => if c in h.clients then h else SubscribeStep(h, c, scope, buffer)
    case CountAccepted(c) =>
      if c in h.clients && !h.clients[c].counted then h.(clients := h.clients[c := h.clients[c].(counted := true)], accepted := h.accepted + 1) else h
    case BeginPublish(scope) =>
      h.(log := h.log + [scope], calls := h.calls[Publish(|h.log|) := Call(InScope(h.registered, scope), false, None, false)])
    case CountPublished(i) =>
      if Publish(i) in h.calls && !h.calls[Publish(i)].counted
      then h.(calls := h.calls[Publish(i) := h.calls[Publish(i)].(counted := true)], published := h.published + 1) else h
    case Send(i, c) => if CanSend(h, i, c) then SendStep(h, i, c) else h
    case BeginUnsubscribe(k, c) =>
      if Unsubscribe(k) in h.calls || c !in h.clients then h else h.(calls := h.calls[Unsubscribe(k) := Call({}, true, Some(c), false)])
    case EnterOnce(id) => if Closes(h, id) && !h.calls[id].inside then EnterStep(h, id) else h
    case AdvanceOnce(id) => if Closes(h, id) && h.calls[id].inside then AdvanceStep(h, id) else h
    case Return(id) => if id in h.calls && Finished(h.calls[id]) then h.(calls := h.calls - {id}) else h
    case Receive(c) =>
      if c in h.clients && h.clients[c].queue != []
      then h.(clients := h.clients[c := h.clients[c].(received := h.clients[c].received + [h.clients[c].queue[0]], queue := h.clients[c].queue[1..])])
      else h
  }

  function Run(steps: seq<Step>): Hub {
    if steps == [] then INITIAL else Apply(Run(steps[..|steps| - 1]), steps[|steps| - 1])
  }

  // ---------------------------------------------------------------- registration and closing

  predicate Listed(stage: Stage) {
    stage == Open || stage == Removing
  }

  predicate InOnce(stage: Stage) {
    stage == Removing || stage == Closing || stage == Counting
  }

  /** The map lists exactly the clients that have not been removed, without empty scopes. */
  ghost predicate MapAgrees(h: Hub) {
    && (forall c, scope :: c in InScope(h.registered, scope) <==> c in h.clients && h.clients[c].scope == scope && Listed(h.clients[c].stage))
    && (forall scope :: scope in h.registered ==> h.registered[scope] != {})
  }

  /** Both channels close together, inside `closeOnce`, and nothing has panicked. */
  ghost predicate ChannelsAgree(h: Hub) {
    && !h.panicked
    && forall c :: c in h.clients ==>
         var client := h.clients[c];
         client.closed == client.channelClosed && (client.closed <==> client.stage == Counting || client.stage == Gone)
  }

  ghost predicate Holds(h: Hub, id: CallId, c: ClientId) {
    id in h.calls && h.calls[id].inside && h.calls[id].closing == Some(c)
  }

  /** Calls name known messages and known clients. */
  ghost predicate ClosingKnown(h: Hub) {
    forall id :: id in h.calls ==>
      && (h.calls[id].inside ==> h.calls[id].closing.Some?)
      && (h.calls[id].closing.Some? ==> h.calls[id].closing.value in h.clients)
      && (id.Publish? ==> id.message < |h.log|)
  }

  /** A client is inside `closeOnce` exactly when one call in flight is in there for it. */
  ghost predicate OnceAgrees(h: Hub) {
    && ClosingKnown(h)
    && (forall id, c :: Holds(h, id, c) ==> InOnce(h.clients[c].stage))
    && (forall id, id', c :: Holds(h, id, c) && Holds(h, id', c) ==> id == id')
    && (forall c :: c in h.clients && InOnce(h.clients[c].stage) ==> exists id :: Holds(h, id, c))
  }

  function Counted(h: Hub): set<ClientId> {
    set c | c in h.clients && h.clients[c].counted
  }

  function Departed(h: Hub): set<ClientId> {
    set c | c in h.clients && h.clients[c].stage == Gone
  }

  ghost predicate CountersAgree(h: Hub) {
    h.accepted == |Counted(h)| && h.closed == |Departed(h)|
  }

  /** What a client has been handed, read or not, in order. */
  function Handed(client: Client): seq<nat> {
    client.received + client.queue
  }

  ghost predicate SameReader(a: Client, b: Client) {
    a.scope == b.scope && a.since == b.since && Handed(a) == Handed(b) && (a.stage == Open ==> b.stage == Open)
  }

  /** The one client that a step inside `closeOnce` touches, afterwards. */
  function Advanced(client: Client): (r: Client)
    ensures SameReader(r, client)
  {
    match client.stage
    case Removing => client.(stage := Closing)
    case Closing => client.(stage := Counting, closed := true, channelClosed := client.channelClosed || !client.closed)
    case Counting => client.(stage := Gone)
    case _ => client
  }

  lemma AdvanceMovesClient(h: Hub, id: CallId, after: Hub, c: ClientId)
    requires Closes(h, id) && after == AdvanceStep(h, id) && c == h.calls[id].closing.value
    ensures after.log == h.log && after.clients == h.clients[c := Advanced(h.clients[c])]
  {
    match h.clients[c].stage
    case Removing =>
    case Closing =>
    case Counting =>
    case _ => assert h.clients == h.clients[c := h.clients[c]];
  }

  lemma RemovalMap(h: Hub, id: CallId)
    requires MapAgrees(h) && Closes(h, id)
    ensures MapAgrees(AdvanceStep(h, id))
  {
    var after, c := AdvanceStep(h, id), h.calls[id].closing.value;
    if h.clients[c].stage == Removing {
      var home := h.clients[c].scope;
      assert c in InScope(h.registered, home);
      forall x, scope ensures x in InScope(after.registered, scope) <==> x in InScope(h.registered, scope) && (x != c || scope != home) {}
      forall x, scope
        ensures x in InScope(after.registered, scope) <==> x in after.clients && after.clients[x].scope == scope && Listed(after.clients[x].stage) {
        assert x in InScope(h.registered, scope) <==> x in h.clients && h.clients[x].scope == scope && Listed(h.clients[x].stage);
      }
    }
  }

  lemma MapFrame(h: Hub, after: Hub)
    requires MapAgrees(h) && after.registered == h.registered && after.clients.Keys == h.clients.Keys
    requires forall c :: c in h.clients ==> after.clients[c].scope == h.clients[c].scope && Listed(after.clients[c].stage) == Listed(h.clients[c].stage)
    ensures MapAgrees(after)
  {
  }

  lemma SubscribeMap(h: Hub, c: ClientId, scope: Scope, buffer: int)
    requires MapAgrees(h) && c !in h.clients
    ensures MapAgrees(SubscribeStep(h, c, scope, buffer))
  {
    var after := SubscribeStep(h, c, scope, buffer);
    forall x, s ensures x in InScope(after.registered, s) <==> x in after.clients && after.clients[x].scope == s && Listed(after.clients[x].stage) {
      assert x in InScope(after.registered, s) <==> x in InScope(h.registered, s) || (x == c && s == scope);
      assert x in InScope(h.registered, s) <==> x in h.clients && h.clients[x].scope == s && Listed(h.clients[x].stage);
    }
  }

  lemma SendMap(h: Hub, i: nat, c: ClientId)
    requires MapAgrees(h) && CanSend(h, i, c)
    ensures MapAgrees(SendStep(h, i, c))
  {
    MapFrame(h, SendStep(h, i, c));
  }

  lemma EnterMap(h: Hub, id: CallId)
    requires MapAgrees(h) && Closes(h, id)
    ensures MapAgrees(EnterStep(h, id))
  {
    MapFrame(h, EnterStep(h, id));
  }

  lemma StepMap(h: Hub, step: Step)
    requires MapAgrees(h)
    ensures MapAgrees(Apply(h, step))
  {
    match step
    case AdvanceOnce(id) => if Closes(h, id) { RemovalMap(h, id); }
    case Subscribe(c, scope, buffer) => if c !in h.clients { SubscribeMap(h, c, scope, buffer); }
    case Send(i, c) => if CanSend(h, i, c) { SendMap(h, i, c); }
    case EnterOnce(id) => if Closes(h, id) { EnterMap(h, id); }
    case _ => MapFrame(h, Apply(h, step));
  }

  /** The two ways in which Go would panic: a send on a closed channel, and a second close of one. */
  lemma PanicsIff(h: Hub, step: Step)
    requires !h.panicked
    ensures Apply(h, step).panicked <==>
            || (step.Send? && CanSend(h, step.message, step.client) && Accepts(h.clients[step.client]) && h.clients[step.client].channelClosed)
            || (step.AdvanceOnce? && Closes(h, step.id) && h.calls[step.id].inside
                && var client := h.clients[h.calls[step.id].closing.value]; client.stage == Closing && !client.closed && client.channelClosed)
  {
  }

  lemma StepChannels(h: Hub, step: Step)
    requires ChannelsAgree(h)
    ensures ChannelsAgree(Apply(h, step))
  {
  }

  /** Steps that move nobody into, through or out of `closeOnce`. */
  lemma OnceFrame(h: Hub, after: Hub)
    requires OnceAgrees(h) && ClosingKnown(after)
    requires forall id, c :: Holds(after, id, c) <==> Holds(h, id, c)
    requires forall c :: c in after.clients && (c !in h.clients || InOnce(after.clients[c].stage) != InOnce(h.clients[c].stage)) ==>
               c !in h.clients && after.clients[c].stage == Open
    requires h.clients.Keys <= after.clients.Keys
    ensures OnceAgrees(after)
  {
    forall c | c in after.clients && InOnce(after.clients[c].stage) ensures exists id :: Holds(after, id, c) {
      var id :| Holds(h, id, c);
      assert Holds(after, id, c);
    }
  }

  lemma EnterKeepsOnce(h: Hub, id: CallId)
    requires OnceAgrees(h) && Closes(h, id) && !h.calls[id].inside
    ensures OnceAgrees(EnterStep(h, id))
  {
    var after, c := EnterStep(h, id), h.calls[id].closing.value;
    if h.clients[c].stage == Open {
      assert forall other, x :: Holds(after, other, x) <==> Holds(h, other, x) || (other == id && x == c);
      forall x | x in after.clients && InOnce(after.clients[x].stage) ensures exists other :: Holds(after, other, x) {
        if x == c { assert Holds(after, id, c); }
        else { var other :| Holds(h, other, x); assert Holds(after, other, x); }
      }
    } else {
      OnceFrame(h, after);
    }
  }

  lemma LeaveKeepsOnce(h: Hub, id: CallId, c: ClientId, after: Hub)
    requires OnceAgrees(h) && Holds(h, id, c) && h.clients[c].stage == Counting && after.log == h.log
    requires after.clients == h.clients[c := h.clients[c].(stage := Gone)]
    requires after.calls == h.calls[id := h.calls[id].(closing := None, inside := false)]
    ensures OnceAgrees(after)
  {
    assert forall other, x :: Holds(after, other, x) <==> Holds(h, other, x) && other != id;
    forall x | x in after.clients && InOnce(after.clients[x].stage) ensures exists other :: Holds(after, other, x) {
      var other :| Holds(h, other, x);
      assert Holds(after, other, x);
    }
  }

  lemma AdvanceKeepsOnce(h: Hub, id: CallId)
    requires OnceAgrees(h) && Closes(h, id) && h.calls[id].inside
    ensures OnceAgrees(AdvanceStep(h, id))
  {
    var after, c := AdvanceStep(h, id), h.calls[id].closing.value;
    assert Holds(h, id, c);
    AdvanceMovesClient(h, id, after, c);
    if h.clients[c].stage == Counting {
      LeaveKeepsOnce(h, id, c, after);
    } else {
      OnceFrame(h, after);
    }
  }

  /** Calls that start, send or return are not inside `closeOnce`. */
  lemma SendKeepsOnce(h: Hub, i: nat, c: ClientId)
    requires OnceAgrees(h) && CanSend(h, i, c)
    ensures OnceAgrees(SendStep(h, i, c))
  {
    OnceFrame(h, SendStep(h, i, c));
  }

  lemma ClientStepKeepsOnce(h: Hub, step: Step)
    requires OnceAgrees(h) && (step.Subscribe? || step.CountAccepted? || step.Receive?)
    ensures OnceAgrees(Apply(h, step))
  {
    var after := Apply(h, step);
    assert after.calls == h.calls && after.log == h.log;
    SameCallsKeepOnce(h, after);
  }

  lemma SameCallsKeepOnce(h: Hub, after: Hub)
    requires OnceAgrees(h) && after.calls == h.calls && after.log == h.log && h.clients.Keys <= after.clients.Keys
    requires forall c :: c in after.clients ==> after.clients[c].stage == if c in h.clients then h.clients[c].stage else Open
    ensures OnceAgrees(after)
  {
    OnceFrame(h, after);
  }

  lemma SameClientsKeepOnce(h: Hub, after: Hub)
    requires OnceAgrees(h) && after.clients == h.clients && |h.log| <= |after.log|
    requires forall id :: id in after.calls && id !in h.calls ==>
               && !after.calls[id].inside && (after.calls[id].closing.Some? ==> after.calls[id].closing.value in h.clients)
               && (id.Publish? ==> id.message < |after.log|)
    requires forall id :: id in after.calls && id in h.calls ==>
               after.calls[id].inside == h.calls[id].inside && after.calls[id].closing == h.calls[id].closing
    requires forall id :: id in h.calls && h.calls[id].inside ==> id in after.calls
    ensures OnceAgrees(after)
  {
    OnceFrame(h, after);
  }

  lemma CallStepKeepsOnce(h: Hub, step: Step)
    requires OnceAgrees(h) && (step.BeginPublish? || step.CountPublished? || step.BeginUnsubscribe? || step.Return?)
    ensures OnceAgrees(Apply(h, step))
  {
    if step.BeginPublish? { assert Publish(|h.log|) !in h.calls; }
    SameClientsKeepOnce(h, Apply(h, step));
  }

  lemma StepOnce(h: Hub, step: Step)
    requires OnceAgrees(h)
    ensures OnceAgrees(Apply(h, step))
  {
    match step
    case EnterOnce(id) => if Closes(h, id) && !h.calls[id].inside { EnterKeepsOnce(h, id); }
    case AdvanceOnce(id) => if Closes(h, id) && h.calls[id].inside { AdvanceKeepsOnce(h, id); }
    case Send(i, c) => if CanSend(h, i, c) { SendKeepsOnce(h, i, c); }
    case Subscribe(_, _, _) => ClientStepKeepsOnce(h, step);
    case CountAccepted(_) => ClientStepKeepsOnce(h, step);
    case Receive(_) => ClientStepKeepsOnce(h, step);
    case _ => CallStepKeepsOnce(h, step);
  }

  /** Steps after which every client is counted, or gone, exactly as before. */
  lemma CountersFrame(h: Hub, after: Hub)
    requires CountersAgree(h) && after.accepted == h.accepted && after.closed == h.closed
    requires forall c :: (c in after.clients && after.clients[c].counted) <==> (c in h.clients && h.clients[c].counted)
    requires forall c :: (c in after.clients && after.clients[c].stage == Gone) <==> (c in h.clients && h.clients[c].stage == Gone)
    ensures CountersAgree(after)
  {
    assert Counted(after) == Counted(h) && Departed(after) == Departed(h);
  }

  lemma AcceptCounters(h: Hub, c: ClientId)
    requires CountersAgree(h) && c in h.clients && !h.clients[c].counted
    ensures CountersAgree(Apply(h, CountAccepted(c)))
  {
    var after := Apply(h, CountAccepted(c));
    assert Counted(after) == Counted(h) + {c} && Departed(after) == Departed(h);
  }

  lemma CountDeparture(h: Hub, after: Hub, c: ClientId)
    requires CountersAgree(h) && c in h.clients && h.clients[c].stage == Counting && after.clients == h.clients[c := h.clients[c].(stage := Gone)]
    requires after.accepted == h.accepted && after.closed == h.closed + 1
    ensures CountersAgree(after)
  {
    assert Counted(after) == Counted(h) && Departed(after) == Departed(h) + {c};
  }

  lemma AdvanceCounters(h: Hub, id: CallId)
    requires CountersAgree(h) && Closes(h, id)
    ensures CountersAgree(AdvanceStep(h, id))
  {
    var after, c := AdvanceStep(h, id), h.calls[id].closing.value;
    AdvanceMovesClient(h, id, after, c);
    if h.clients[c].stage == Counting {
      CountDeparture(h, after, c);
    } else {
      CountersFrame(h, after);
    }
  }

  lemma SendCounters(h: Hub, i: nat, c: ClientId)
    requires CountersAgree(h) && CanSend(h, i, c)
    ensures CountersAgree(SendStep(h, i, c))
  {
    CountersFrame(h, SendStep(h, i, c));
  }

  lemma EnterCounters(h: Hub, id: CallId)
    requires CountersAgree(h) && Closes(h, id)
    ensures CountersAgree(EnterStep(h, id))
  {
    CountersFrame(h, EnterStep(h, id));
  }

  lemma ClientStepCounters(h: Hub, step: Step)
    requires CountersAgree(h) && (step.Subscribe? || step.Receive?)
    ensures CountersAgree(Apply(h, step))
  {
    CountersFrame(h, Apply(h, step));
  }

  lemma CallStepCounters(h: Hub, step: Step)
    requires CountersAgree(h) && (step.BeginPublish? || step.CountPublished? || step.BeginUnsubscribe? || step.Return?)
    ensures CountersAgree(Apply(h, step))
  {
    assert Apply(h, step).clients == h.clients;
    CountersFrame(h, Apply(h, step));
  }

  lemma StepCounters(h: Hub, step: Step)
    requires CountersAgree(h)
    ensures CountersAgree(Apply(h, step))
  {
    match step
    case CountAccepted(c) => if c in h.clients && !h.clients[c].counted { AcceptCounters(h, c); }
    case AdvanceOnce(id) => if Closes(h, id) { AdvanceCounters(h, id); }
    case EnterOnce(id) => if Closes(h, id) { EnterCounters(h, id); }
    case Send(i, c) => if CanSend(h, i, c) { SendCounters(h, i, c); }
    case Subscribe(_, _, _) => ClientStepCounters(h, step);
    case Receive(_) => ClientStepCounters(h, step);
    case _ => CallStepCounters(h, step);
  }

  // ---------------------------------------------------------------- delivery

  /** Publication `i` is for `c`: its scope, and made after `c` subscribed. */
  predicate Due(h: Hub, c: ClientId, i: nat) {
    c in h.clients && h.clients[c].since <= i < |h.log| && h.log[i] == h.clients[c].scope
  }

  /** Publication `i` still has this client ahead of it: to be sent to, or refused and about to be closed. */
  ghost predicate Owed(h: Hub, c: ClientId, i: nat) {
    && Publish(i) in h.calls
    && (c in h.calls[Publish(i)].remaining || (h.calls[Publish(i)].closing == Some(c) && !h.calls[Publish(i)].inside))
  }

  ghost predicate NoDuplicates(s: seq<nat>) {
    forall i, j :: 0 <= i < j < |s| ==> s[i] != s[j]
  }

  /** Clients are handed only what is due, once, and never after it is still owed. */
  ghost predicate HandedIsDue(h: Hub) {
    && (forall c :: c in h.clients ==> NoDuplicates(Handed(h.clients[c])))
    && (forall c, i :: c in h.clients && i in Handed(h.clients[c]) ==> Due(h, c, i))
    && (forall c, i :: Publish(i) in h.calls && c in h.calls[Publish(i)].remaining ==> Due(h, c, i) && i !in Handed(h.clients[c]))
    && (forall c :: c in h.clients ==> h.clients[c].since <= |h.log|)
  }

  /** An open client has been handed everything due to it, or is owed it by a publication in flight. */
  ghost predicate NothingForgotten(h: Hub) {
    forall c, i :: Due(h, c, i) && h.clients[c].stage == Open ==> i in Handed(h.clients[c]) || Owed(h, c, i)
  }

  ghost predicate DeliveryAgrees(h: Hub) {
    MapAgrees(h) && OnceAgrees(h) && HandedIsDue(h) && NothingForgotten(h)
  }

  /** Handed sequences and debts as before. */
  lemma DeliveryFrame(h: Hub, after: Hub)
    requires HandedIsDue(h) && NothingForgotten(h) && after.log == h.log
    requires forall c :: c in after.clients <==> c in h.clients
    requires forall c :: c in h.clients ==> SameReader(after.clients[c], h.clients[c])
    requires forall i, c :: Publish(i) in after.calls && c in after.calls[Publish(i)].remaining ==> Publish(i) in h.calls && c in h.calls[Publish(i)].remaining
    requires forall c, i :: c in after.clients && after.clients[c].stage == Open && Owed(h, c, i) ==> h.clients[c].stage == Open && Owed(after, c, i)
    ensures HandedIsDue(after) && NothingForgotten(after)
  {
    forall c, i ensures Due(after, c, i) == Due(h, c, i) {}
  }

  lemma SubscribeDelivers(h: Hub, c: ClientId, scope: Scope, buffer: int)
    requires HandedIsDue(h) && NothingForgotten(h) && c !in h.clients
    ensures HandedIsDue(SubscribeStep(h, c, scope, buffer)) && NothingForgotten(SubscribeStep(h, c, scope, buffer))
  {
    var after := SubscribeStep(h, c, scope, buffer);
    forall x, i | x != c ensures Due(after, x, i) == Due(h, x, i) && Owed(after, x, i) == Owed(h, x, i) {}
    assert forall i :: !Due(after, c, i);
    forall x, i | Publish(i) in after.calls && x in after.calls[Publish(i)].remaining ensures Due(after, x, i) && i !in Handed(after.clients[x]) {
      assert Due(h, x, i);
    }
  }

  /** The new publication owes its message to every client then registered, and nobody has it yet. */
  lemma BeginPublishDelivers(h: Hub, scope: Scope)
    requires DeliveryAgrees(h)
    ensures HandedIsDue(Apply(h, BeginPublish(scope))) && NothingForgotten(Apply(h, BeginPublish(scope)))
  {
    var after, n := Apply(h, BeginPublish(scope)), |h.log|;
    forall c, i ensures Due(after, c, i) == if i == n then c in h.clients && h.clients[c].scope == scope else Due(h, c, i) {}
    forall c, i | i != n ensures Owed(after, c, i) == Owed(h, c, i) {}
    forall c ensures Owed(after, c, n) == (c in InScope(h.registered, scope)) {}
  }

  lemma AcceptedDelivers(h: Hub, i: nat, c: ClientId)
    requires HandedIsDue(h) && NothingForgotten(h) && CanSend(h, i, c) && Accepts(h.clients[c])
    ensures HandedIsDue(SendStep(h, i, c)) && NothingForgotten(SendStep(h, i, c))
  {
    var after := SendStep(h, i, c);
    forall x, j ensures Due(after, x, j) == Due(h, x, j) {}
    forall x, j | x != c || j != i ensures Owed(after, x, j) == Owed(h, x, j) {}
    assert Handed(after.clients[c]) == Handed(h.clients[c]) + [i];
  }

  /** A refused message is owed until the client is closed. */
  lemma RefusedDelivers(h: Hub, i: nat, c: ClientId)
    requires HandedIsDue(h) && NothingForgotten(h) && CanSend(h, i, c) && !Accepts(h.clients[c])
    ensures HandedIsDue(SendStep(h, i, c)) && NothingForgotten(SendStep(h, i, c))
  {
    var after := SendStep(h, i, c);
    assert after.clients == h.clients;
    forall x, j ensures Owed(after, x, j) == Owed(h, x, j) {}
    DeliveryFrame(h, after);
  }

  lemma ReceiveDelivers(h: Hub, c: ClientId)
    requires HandedIsDue(h) && NothingForgotten(h) && c in h.clients && h.clients[c].queue != []
    ensures HandedIsDue(Apply(h, Receive(c))) && NothingForgotten(Apply(h, Receive(c)))
  {
    var after := Apply(h, Receive(c));
    assert Handed(after.clients[c]) == Handed(h.clients[c]);
    DeliveryFrame(h, after);
  }

  /** The first caller takes the client out of the open ones; a later one finds it gone already. */
  lemma EnterLeavesDebts(h: Hub, id: CallId, after: Hub, x: ClientId, i: nat)
    requires Closes(h, id) && !h.calls[id].inside && after == EnterStep(h, id)
    requires x in after.clients && after.clients[x].stage == Open && Owed(h, x, i)
    ensures x in h.clients && h.clients[x].stage == Open && Owed(after, x, i)
  {
    match h.clients[h.calls[id].closing.value].stage
    case Open =>
    case Gone =>
    case _ =>
  }

  lemma EnterLeavesReaders(h: Hub, id: CallId, after: Hub)
    requires Closes(h, id) && after == EnterStep(h, id)
    ensures after.log == h.log && after.clients.Keys == h.clients.Keys
    ensures forall c :: c in h.clients ==> SameReader(after.clients[c], h.clients[c])
    ensures forall i, c :: Publish(i) in after.calls && c in after.calls[Publish(i)].remaining ==> Publish(i) in h.calls && c in h.calls[Publish(i)].remaining
  {
  }

  lemma EnterDelivers(h: Hub, id: CallId)
    requires HandedIsDue(h) && NothingForgotten(h) && Closes(h, id) && !h.calls[id].inside
    ensures HandedIsDue(EnterStep(h, id)) && NothingForgotten(EnterStep(h, id))
  {
    var after := EnterStep(h, id);
    EnterLeavesReaders(h, id, after);
    forall x, i | x in after.clients && after.clients[x].stage == Open && Owed(h, x, i) ensures h.clients[x].stage == Open && Owed(after, x, i) {
      EnterLeavesDebts(h, id, after, x, i);
    }
    DeliveryFrame(h, after);
  }

  /** Inside `closeOnce` no debt changes and nobody opens. */
  lemma AdvanceLeavesDebts(h: Hub, id: CallId, after: Hub)
    requires Closes(h, id) && h.calls[id].inside && after == AdvanceStep(h, id)
    ensures forall x, i :: Owed(after, x, i) == Owed(h, x, i)
    ensures forall i, x :: Publish(i) in after.calls && x in after.calls[Publish(i)].remaining ==> Publish(i) in h.calls && x in h.calls[Publish(i)].remaining
  {
    var call := h.calls[id];
    assert after.calls == h.calls || after.calls == h.calls[id := call.(closing := None, inside := false)];
  }

  lemma AdvanceDelivers(h: Hub, id: CallId)
    requires HandedIsDue(h) && NothingForgotten(h) && Closes(h, id) && h.calls[id].inside
    ensures HandedIsDue(AdvanceStep(h, id)) && NothingForgotten(AdvanceStep(h, id))
  {
    var after := AdvanceStep(h, id);
    AdvanceLeavesDebts(h, id, after);
    AdvanceMovesClient(h, id, after, h.calls[id].closing.value);
    DeliveryFrame(h, after);
  }

  lemma CountingDelivers(h: Hub, step: Step)
    requires DeliveryAgrees(h) && (step.CountAccepted? || step.CountPublished?)
    ensures HandedIsDue(Apply(h, step)) && NothingForgotten(Apply(h, step))
  {
    forall x, i ensures Owed(Apply(h, step), x, i) == Owed(h, x, i) {}
    DeliveryFrame(h, Apply(h, step));
  }

  lemma CallStepDelivers(h: Hub, step: Step)
    requires DeliveryAgrees(h) && (step.BeginUnsubscribe? || step.Return?)
    ensures HandedIsDue(Apply(h, step)) && NothingForgotten(Apply(h, step))
  {
    forall x, i ensures Owed(Apply(h, step), x, i) == Owed(h, x, i) {}
    DeliveryFrame(h, Apply(h, step));
  }

  lemma StepDelivers(h: Hub, step: Step)
    requires DeliveryAgrees(h)
    ensures HandedIsDue(Apply(h, step)) && NothingForgotten(Apply(h, step))
  {
    match step
    case Subscribe(c, scope, buffer) => if c !in h.clients { SubscribeDelivers(h, c, scope, buffer); }
    case BeginPublish(scope) => BeginPublishDelivers(h, scope);
    case Send(i, c) => if CanSend(h, i, c) { if Accepts(h.clients[c]) { AcceptedDelivers(h, i, c); } else { RefusedDelivers(h, i, c); } }
    case Receive(c) => if c in h.clients && h.clients[c].queue != [] { ReceiveDelivers(h, c); }
    case EnterOnce(id) => if Closes(h, id) && !h.calls[id].inside { EnterDelivers(h, id); }
    case AdvanceOnce(id) => if Closes(h, id) && h.calls[id].inside { AdvanceDelivers(h, id); }
    case CountAccepted(_) => CountingDelivers(h, step);
    case CountPublished(_) => CountingDelivers(h, step);
    case _ => CallStepDelivers(h, step);
  }

  // ---------------------------------------------------------------- every run

  lemma {:induction false} EveryRunAgrees(steps: seq<Step>)
    ensures DeliveryAgrees(Run(steps)) && ChannelsAgree(Run(steps)) && CountersAgree(Run(steps))
  {
    if steps != [] {
      var before, step := Run(steps[..|steps| - 1]), steps[|steps| - 1];
      EveryRunAgrees(steps[..|steps| - 1]);
      StepMap(before, step);
      StepOnce(before, step);
      StepChannels(before, step);
      StepCounters(before, step);
      StepDelivers(before, step);
    }
  }

  /** No call is in flight. */
  ghost predicate Quiet(h: Hub) {
    h.calls == map[] && forall c :: c in h.clients ==> h.clients[c].counted
  }

  /**
   Once no call is in flight, every client is open or gone; an open one has been handed every message
   of its scope published since it subscribed, each once; one that missed a message is closed and
   off the map; and nothing was ever sent to, or closed on, a closed channel.
   */
  lemma QuietMeansDelivered(steps: seq<Step>, c: ClientId)
    requires Quiet(Run(steps)) && c in Run(steps).clients
    ensures var h := Run(steps); var client := h.clients[c];
            && !h.panicked
            && (client.stage == Open || client.stage == Gone)
            && (client.closed <==> client.stage == Gone)
            && (client.closed <==> c !in InScope(h.registered, client.scope))
            && NoDuplicates(Handed(client))
            && (forall i :: i in Handed(client) ==> Due(h, c, i))
            && (!client.closed ==> forall i :: Due(h, c, i) ==> i in Handed(client))
            && ((exists i :: Due(h, c, i) && i !in Handed(client)) ==> client.closed)
  {
    EveryRunAgrees(steps);
    var h := Run(steps);
    assert forall id :: !Holds(h, id, c);
  }

  function Registered(h: Hub): set<ClientId> {
    set c | c in h.clients && Listed(h.clients[c].stage)
  }

  /** Once no call is in flight, accepted minus closed is the number of registered clients. */
  lemma QuietMeansCounted(steps: seq<Step>)
    requires Quiet(Run(steps))
    ensures Run(steps).accepted - Run(steps).closed == |Registered(Run(steps))|
  {
    EveryRunAgrees(steps);
    var h := Run(steps);
    forall c | c in h.clients ensures h.clients[c].stage == Open || h.clients[c].stage == Gone {
      QuietMeansDelivered(steps, c);
    }
    assert Counted(h) == Registered(h) + Departed(h);
  }

  /** The sum of the sizes of the inner maps, scope by scope. */
  ghost function ActiveConnections(registered: map<Scope, set<ClientId>>): nat {
    if registered == map[] then 0
    else
      var scope :| scope in registered;
      |registered[scope]| + ActiveConnections(registered - {scope})
  }

  /** `all` is what the inner maps hold, and no client is in two of them. */
  ghost predicate Partitioned(registered: map<Scope, set<ClientId>>, all: set<ClientId>) {
    && (forall c :: c in all <==> exists scope :: scope in registered && c in registered[scope])
    && (forall s, t :: s in registered && t in registered && s != t ==> registered[s] !! registered[t])
  }

  lemma PartitionedRest(registered: map<Scope, set<ClientId>>, all: set<ClientId>, scope: Scope)
    requires Partitioned(registered, all) && scope in registered
    ensures Partitioned(registered - {scope}, all - registered[scope])
    ensures registered[scope] <= all
  {
    var rest := registered - {scope};
    forall c ensures c in all - registered[scope] <==> exists s :: s in rest && c in rest[s] {
      if c in all - registered[scope] {
        var s :| s in registered && c in registered[s];
        assert s in rest && c in rest[s];
      }
    }
  }

  /** The number that the metrics report as active is the number of registered clients. */
  lemma {:induction false} ActiveIsRegistered(registered: map<Scope, set<ClientId>>, all: set<ClientId>)
    requires Partitioned(registered, all)
    ensures ActiveConnections(registered) == |all|
  {
    if registered == map[] {
      assert all == {};
    } else {
      var scope :| scope in registered && ActiveConnections(registered) == |registered[scope]| + ActiveConnections(registered - {scope});
      PartitionedRest(registered, all, scope);
      ActiveIsRegistered(registered - {scope}, all - registered[scope]);
      assert all == registered[scope] + (all - registered[scope]);
    }
  }

  lemma EveryRunActive(steps: seq<Step>)
    ensures ActiveConnections(Run(steps).registered) == |Registered(Run(steps))|
  {
    EveryRunAgrees(steps);
    var h := Run(steps);
    forall c ensures c in Registered(h) <==> exists scope :: scope in h.registered && c in h.registered[scope] {
      if c in Registered(h) { assert c in InScope(h.registered, h.clients[c].scope); }
      if exists scope :: scope in h.registered && c in h.registered[scope] {
        var scope :| scope in h.registered && c in h.registered[scope];
        assert c in InScope(h.registered, scope);
      }
    }
    forall s, t | s in h.registered && t in h.registered && s != t ensures h.registered[s] !! h.registered[t] {
      assert h.registered[s] == InScope(h.registered, s) && h.registered[t] == InScope(h.registered, t);
      assert forall c :: c in InScope(h.registered, s) ==> c in h.clients && h.clients[c].scope == s;
      assert forall c :: c in InScope(h.registered, t) ==> c in h.clients && h.clients[c].scope == t;
    }
    ActiveIsRegistered(h.registered, Registered(h));
  }
}
