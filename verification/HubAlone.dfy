/** One publication, run alone in the protocol, has the effect that `RealtimeHub` states of its method. */
module HubAlone {
  import opened Common
  import opened HubProtocol
  import opened HubProgress

  function ClosedOf(client: Client): Client {
    client.(stage := Gone, closed := true, channelClosed := true)
  }

  function ServedOf(client: Client, i: nat): Client {
    if Accepts(client) then client.(queue := client.queue + [i]) else ClosedOf(client)
  }

  /** Open clients that have no room. */
  function FullOf(h: Hub, clients: set<ClientId>): set<ClientId> {
    set c | c in clients && c in h.clients && !Accepts(h.clients[c])
  }

  /** `todo` has been served and nothing else of the hub has moved. */
  ghost predicate Served(h: Hub, after: Hub, todo: set<ClientId>, i: nat) {
    && after.clients.Keys == h.clients.Keys
    && (forall c :: c in h.clients ==> after.clients[c] == if c in todo then ServedOf(h.clients[c], i) else h.clients[c])
    && (forall scope :: InScope(after.registered, scope) == InScope(h.registered, scope) - FullOf(h, todo))
    && after.dropped == h.dropped + |FullOf(h, todo)| && after.backpressure == h.backpressure + |FullOf(h, todo)|
    && after.closed == h.closed + |FullOf(h, todo)| && after.accepted == h.accepted && after.published == h.published
    && after.log == h.log && after.panicked == h.panicked
  }

  lemma PlayFirst(h: Hub, step: Step, rest: seq<Step>)
    ensures Play(h, [step] + rest) == Play(Apply(h, step), rest)
  {
    assert ([step] + rest)[1..] == rest;
  }

  /** The three sections inside `closeOnce`. */
  lemma InsideAlone(h: Hub, id: CallId, c: ClientId)
    requires Holds(h, id, c) && c in h.clients && h.clients[c].stage == Removing && !h.clients[c].closed && !h.clients[c].channelClosed
    ensures Apply(Apply(Apply(h, AdvanceOnce(id)), AdvanceOnce(id)), AdvanceOnce(id)) ==
            h.(clients := h.clients[c := ClosedOf(h.clients[c])], closed := h.closed + 1,
               registered := Deregister(h.registered, h.clients[c].scope, c), calls := Through(h, id))
  {
    var advance, client := AdvanceOnce(id), h.clients[c];
    var removed := Apply(h, advance);
    assert removed == h.(registered := Deregister(h.registered, client.scope, c), clients := h.clients[c := client.(stage := Closing)]);
    var shut := Apply(removed, advance);
    assert shut == removed.(clients := h.clients[c := client.(stage := Counting, closed := true, channelClosed := true)]);
    assert Apply(shut, advance) == shut.(clients := h.clients[c := ClosedOf(client)], closed := h.closed + 1, calls := Through(h, id));
  }

  /** A client nobody else is closing goes through `closeOnce` in four sections. */
  lemma CloseAlone(h: Hub, id: CallId, c: ClientId) returns (more: seq<Step>)
    requires id in h.calls && c in h.clients && h.calls[id].closing == Some(c) && !h.calls[id].inside
    requires h.clients[c].stage == Open && !h.clients[c].closed && !h.clients[c].channelClosed
    ensures OnlyContinues(more)
    ensures Play(h, more) == h.(clients := h.clients[c := ClosedOf(h.clients[c])], closed := h.closed + 1,
                                registered := Deregister(h.registered, h.clients[c].scope, c), calls := Through(h, id))
  {
    var enter, advance, client := EnterOnce(id), AdvanceOnce(id), h.clients[c];
    var entered := Apply(h, enter);
    assert entered == h.(clients := h.clients[c := client.(stage := Removing)], calls := h.calls[id := h.calls[id].(inside := true)]);
    InsideAlone(entered, id, c);
    more := [enter] + ([advance] + ([advance] + ([advance] + [])));
    PlayFirst(h, enter, [advance] + ([advance] + ([advance] + [])));
    PlayFirst(entered, advance, [advance] + ([advance] + []));
    PlayFirst(Apply(entered, advance), advance, [advance] + []);
    PlayFirst(Apply(Apply(entered, advance), advance), advance, []);
    assert entered.clients[c := ClosedOf(entered.clients[c])] == h.clients[c := ClosedOf(client)];
    assert Through(entered, id) == Through(h, id);
  }

  /** The client's own state, as the invariants leave it when nobody is inside `closeOnce`. */
  ghost predicate OpenAndListed(h: Hub, c: ClientId) {
    && c in h.clients && h.clients[c].stage == Open && !h.clients[c].closed && !h.clients[c].channelClosed
    && forall scope :: c in InScope(h.registered, scope) <==> scope == h.clients[c].scope
  }

  /** One turn of the loop: the client is sent to, or closed and taken off the map. */
  lemma OfferAlone(h: Hub, i: nat, c: ClientId) returns (more: seq<Step>)
    requires CanSend(h, i, c) && !h.calls[Publish(i)].inside && OpenAndListed(h, c)
    ensures OnlyContinues(more) && Served(h, Play(h, more), {c}, i)
    ensures Play(h, more).calls == h.calls[Publish(i) := h.calls[Publish(i)].(remaining := h.calls[Publish(i)].remaining - {c})]
  {
    var send, id := Send(i, c), Publish(i);
    var sent := Apply(h, send);
    assert sent == SendStep(h, i, c);
    if Accepts(h.clients[c]) {
      assert FullOf(h, {c}) == {};
      more := [send] + [];
      PlayFirst(h, send, []);
    } else {
      assert FullOf(h, {c}) == {c};
      var rest := CloseAlone(sent, id, c);
      more := [send] + rest;
      PlayFirst(h, send, rest);
      ClosedIsServed(h, Play(h, more), c, i);
    }
  }

  lemma ClosedIsServed(h: Hub, after: Hub, c: ClientId, i: nat)
    requires OpenAndListed(h, c) && !Accepts(h.clients[c])
    requires after == h.(clients := h.clients[c := ClosedOf(h.clients[c])], closed := h.closed + 1, dropped := h.dropped + 1,
                         backpressure := h.backpressure + 1, registered := Deregister(h.registered, h.clients[c].scope, c), calls := after.calls)
    ensures Served(h, after, {c}, i)
  {
    assert FullOf(h, {c}) == {c};
    forall scope ensures InScope(after.registered, scope) == InScope(h.registered, scope) - {c} {}
  }

  lemma FullTogether(h: Hub, mid: Hub, c: ClientId, others: set<ClientId>)
    requires mid.clients.Keys == h.clients.Keys && c !in others && forall x :: x in h.clients && x != c ==> mid.clients[x] == h.clients[x]
    ensures FullOf(mid, others) == FullOf(h, others) && FullOf(h, others + {c}) == FullOf(h, others) + FullOf(h, {c})
    ensures |FullOf(h, others + {c})| == |FullOf(h, others)| + |FullOf(h, {c})|
  {
    assert FullOf(h, others + {c}) == FullOf(h, others) + FullOf(h, {c}) && FullOf(h, others) !! FullOf(h, {c});
  }

  /** Serving one client and then others is serving them all. */
  lemma ServedTogether(h: Hub, mid: Hub, after: Hub, c: ClientId, others: set<ClientId>, i: nat)
    requires Served(h, mid, {c}, i) && Served(mid, after, others, i) && c !in others && c in h.clients
    ensures Served(h, after, others + {c}, i)
  {
    FullTogether(h, mid, c, others);
    forall scope ensures InScope(after.registered, scope) == InScope(h.registered, scope) - FullOf(h, others + {c}) {
      assert InScope(mid.registered, scope) == InScope(h.registered, scope) - FullOf(h, {c});
    }
  }

  lemma OthersStayListed(h: Hub, mid: Hub, c: ClientId, x: ClientId, i: nat)
    requires Served(h, mid, {c}, i) && OpenAndListed(h, x) && x != c
    ensures OpenAndListed(mid, x)
  {
    forall scope ensures x in InScope(mid.registered, scope) <==> x in InScope(h.registered, scope) {}
  }

  lemma {:induction false} ServeAllAlone(h: Hub, i: nat, todo: set<ClientId>) returns (more: seq<Step>)
    requires Publish(i) in h.calls && h.calls[Publish(i)] == Call(todo, true, None, false)
    requires forall c :: c in todo ==> OpenAndListed(h, c)
    ensures OnlyContinues(more) && Served(h, Play(h, more), todo, i)
    ensures Play(h, more).calls == h.calls[Publish(i) := Call({}, true, None, false)]
    decreases |todo|
  {
    more := [];
    if todo == {} {
      assert FullOf(h, todo) == {};
    } else {
      var c :| c in todo;
      var one := OfferAlone(h, i, c);
      var mid := Play(h, one);
      forall x | x in todo - {c} ensures OpenAndListed(mid, x) { OthersStayListed(h, mid, c, x, i); }
      assert mid.calls == h.calls[Publish(i) := Call(todo - {c}, true, None, false)];
      var rest := ServeAllAlone(mid, i, todo - {c});
      Serve(h, c, todo - {c}, i, one, rest);
      assert todo - {c} + {c} == todo;
      more := one + rest;
    }
  }

  lemma Serve(h: Hub, c: ClientId, others: set<ClientId>, i: nat, one: seq<Step>, rest: seq<Step>)
    requires OnlyContinues(one) && OnlyContinues(rest) && c !in others && c in h.clients
    requires Served(h, Play(h, one), {c}, i) && Served(Play(h, one), Play(Play(h, one), rest), others, i)
    ensures OnlyContinues(one + rest) && Play(h, one + rest) == Play(Play(h, one), rest) && Served(h, Play(h, one + rest), others + {c}, i)
  {
    PlayAppend(h, one, rest);
    ServedTogether(h, Play(h, one), Play(Play(h, one), rest), c, others, i);
  }

  lemma RegisteredAreOpen(steps: seq<Step>, c: ClientId, scope: Scope)
    requires Run(steps).calls == map[] && c in InScope(Run(steps).registered, scope)
    ensures OpenAndListed(Run(steps), c)
  {
    EveryRunAgrees(steps);
    var h := Run(steps);
    assert forall id :: !Holds(h, id, c);
  }

  lemma CountedAlone(h: Hub, scope: Scope, i: nat)
    requires h.calls == map[] && i == |h.log|
    ensures Apply(Apply(h, BeginPublish(scope)), CountPublished(i))
         == h.(log := h.log + [scope], published := h.published + 1, calls := map[Publish(i) := Call(InScope(h.registered, scope), true, None, false)])
  {
    var begun := Apply(h, BeginPublish(scope));
    assert begun.calls == map[Publish(i) := Call(InScope(h.registered, scope), false, None, false)];
    assert begun.calls[Publish(i) := Call(InScope(h.registered, scope), true, None, false)] == map[Publish(i) := Call(InScope(h.registered, scope), true, None, false)];
  }

  /**
   In any run without a call in flight, a publication that runs alone to its end counts itself, hands its
   message to every registered client of its scope that has room, closes and takes off the map exactly the
   others, counts each of those once, and moves nothing else.
   */
  lemma PublishAlone(steps: seq<Step>, scope: Scope) returns (more: seq<Step>)
    requires Run(steps).calls == map[]
    ensures OnlyContinues(more)
    ensures var h, after := Run(steps), Run(steps + ([BeginPublish(scope)] + more));
            after.calls == map[]
            && Served(h.(log := h.log + [scope], published := h.published + 1), after, InScope(h.registered, scope), |h.log|)
  {
    more := CountAndServe(Run(steps), steps, scope);
    PlayFirst(Run(steps), BeginPublish(scope), more);
    RunPlays(steps, [BeginPublish(scope)] + more);
  }

  lemma CountAndServe(h: Hub, steps: seq<Step>, scope: Scope) returns (more: seq<Step>)
    requires h == Run(steps) && h.calls == map[]
    ensures OnlyContinues(more)
    ensures var after := Play(Apply(h, BeginPublish(scope)), more);
            after.calls == map[]
            && Served(h.(log := h.log + [scope], published := h.published + 1), after, InScope(h.registered, scope), |h.log|)
  {
    var i, todo := |h.log|, InScope(h.registered, scope);
    var counted := h.(log := h.log + [scope], published := h.published + 1, calls := map[Publish(i) := Call(todo, true, None, false)]);
    CountedAlone(h, scope, i);
    forall c | c in todo ensures OpenAndListed(counted, c) {
      RegisteredAreOpen(steps, c, scope);
      assert OpenAndListed(h, c);
    }
    var serve := ServeAllAlone(counted, i, todo);
    var rest := serve + ([Return(Publish(i))] + []);
    ReturnAlone(counted, i, todo, serve);
    more := [CountPublished(i)] + rest;
    PlayFirst(Apply(h, BeginPublish(scope)), CountPublished(i), rest);
  }

  lemma ReturnAlone(h: Hub, i: nat, todo: set<ClientId>, serve: seq<Step>)
    requires h.calls.Keys == {Publish(i)} && Served(h, Play(h, serve), todo, i)
    requires Play(h, serve).calls == h.calls[Publish(i) := Call({}, true, None, false)]
    ensures var after := Play(h, serve + ([Return(Publish(i))] + [])); after.calls == map[] && Served(h.(calls := map[]), after, todo, i)
  {
    var served := Play(h, serve);
    PlayAppend(h, serve, [Return(Publish(i))] + []);
    PlayFirst(served, Return(Publish(i)), []);
    assert (served.calls - {Publish(i)}).Keys == {};
    assert FullOf(h.(calls := map[]), todo) == FullOf(h, todo);
  }
}
