/** The order in which a client is handed the messages of publications that do not overlap. */
module HubOrder {
  import opened Common
  import opened HubProtocol

  /** Publication `i` was made and its call has returned. */
  ghost predicate Returned(h: Hub, i: nat) {
    i < |h.log| && Publish(i) !in h.calls
  }

  /** The call of publication `i` has still to come to `c`. */
  predicate Ahead(h: Hub, i: nat, c: ClientId) {
    Publish(i) in h.calls && c in h.calls[Publish(i)].remaining
  }

  /** Publication `i` was made, and its call has been at `c` or never will be. */
  ghost predicate Past(h: Hub, i: nat, c: ClientId) {
    i < |h.log| && !Ahead(h, i, c)
  }

  function HandedTo(h: Hub, c: ClientId): seq<nat> {
    if c in h.clients then Handed(h.clients[c]) else []
  }

  lemma PastStays(h: Hub, step: Step, i: nat, c: ClientId)
    requires Past(h, i, c)
    ensures Past(Apply(h, step), i, c)
  {
  }

  /** A step hands a client nothing, or one message of a publication that was ahead of it. */
  lemma OneIsHanded(h: Hub, step: Step, c: ClientId)
    ensures var before, after := HandedTo(h, c), HandedTo(Apply(h, step), c);
            after == before || (step.Send? && Ahead(h, step.message, c) && after == before + [step.message])
  {
    var after := Apply(h, step);
    match step
    case Send(i, x) =>
      if x == c && CanSend(h, i, c) && Accepts(h.clients[c]) { assert HandedTo(after, c) == HandedTo(h, c) + [i]; }
    case Receive(x) =>
      if x == c && c in h.clients && h.clients[c].queue != [] { assert HandedTo(after, c) == HandedTo(h, c); }
    case AdvanceOnce(id) =>
      if Closes(h, id) && h.calls[id].inside { AdvanceMovesClient(h, id, after, h.calls[id].closing.value); }
    case _ =>
  }

  /** A publication whose call is past a client is handed to it no more: what comes later is appended without it. */
  lemma {:induction false} PastIsHandedNoMore(steps: seq<Step>, n: nat, i: nat, c: ClientId)
    requires n <= |steps| && Past(Run(steps[..n]), i, c)
    ensures Past(Run(steps), i, c)
    ensures var before, all := HandedTo(Run(steps[..n]), c), HandedTo(Run(steps), c); before <= all && i !in all[|before|..]
    decreases |steps|
  {
    if n == |steps| {
      assert steps[..n] == steps;
    } else {
      var rest, step := steps[..|steps| - 1], steps[|steps| - 1];
      assert rest[..n] == steps[..n];
      PastIsHandedNoMore(rest, n, i, c);
      PastStays(Run(rest), step, i, c);
      OneIsHanded(Run(rest), step, c);
    }
  }

  /**
   Publications that do not overlap are handed over in order: when publication `i` had returned before
   `j` began, a client that is handed both is handed `i` first, whatever else is in flight.
   */
  lemma EarlierIsHandedFirst(steps: seq<Step>, n: nat, i: nat, j: nat, c: ClientId, p: nat, q: nat)
    requires n <= |steps| && Returned(Run(steps[..n]), i) && |Run(steps[..n]).log| <= j
    requires var all := HandedTo(Run(steps), c); p < |all| && q < |all| && all[p] == i && all[q] == j
    ensures p < q
  {
    PastIsHandedNoMore(steps, n, i, c);
    EveryRunAgrees(steps[..n]);
    var h, all := Run(steps[..n]), HandedTo(Run(steps), c);
    var before := HandedTo(h, c);
    forall k | |before| <= k < |all| ensures all[k] != i {
      assert all[|before|..][k - |before|] == all[k];
    }
    forall k | 0 <= k < |before| ensures all[k] < |h.log| {
      assert all[k] in before && Due(h, c, all[k]);
    }
  }

  // ---------------------------------------------------------------- reading

  function Reads(c: ClientId, n: nat): seq<Step> {
    if n == 0 then [] else Reads(c, n - 1) + [Receive(c)]
  }

  /** A read takes the oldest message. */
  lemma ReadTakesOldest(steps: seq<Step>, c: ClientId)
    requires c in Run(steps).clients && Run(steps).clients[c].queue != []
    ensures var before := Run(steps).clients[c];
            && c in Run(steps + [Receive(c)]).clients
            && Run(steps + [Receive(c)]).clients[c] == before.(received := before.received + [before.queue[0]], queue := before.queue[1..])
  {
    RunAppend(steps, Receive(c));
  }

  lemma OneMore(received: seq<nat>, queue: seq<nat>, n: nat)
    requires 0 < n <= |queue|
    ensures received + queue[..n - 1] + [queue[n - 1..][0]] == received + queue[..n] && queue[n - 1..][1..] == queue[n..]
  {
  }

  /** Reading `n` times takes the `n` oldest messages. */
  lemma {:induction false} ReadingDrains(steps: seq<Step>, c: ClientId, n: nat)
    requires c in Run(steps).clients && n <= |Run(steps).clients[c].queue|
    ensures var before, after := Run(steps).clients[c], Run(steps + Reads(c, n));
            && c in after.clients && after.clients[c].received == before.received + before.queue[..n] && after.clients[c].queue == before.queue[n..]
  {
    if n == 0 {
      assert steps + Reads(c, 0) == steps;
    } else {
      var client := Run(steps).clients[c];
      ReadingDrains(steps, c, n - 1);
      assert steps + Reads(c, n) == steps + Reads(c, n - 1) + [Receive(c)];
      ReadTakesOldest(steps + Reads(c, n - 1), c);
      OneMore(client.received, client.queue, n);
    }
  }

  /** A client that reads as often as its buffer holds messages has received everything it was handed, in that order, and its buffer is empty. */
  lemma ReadingGivesAll(steps: seq<Step>, c: ClientId)
    requires c in Run(steps).clients
    ensures var after := Run(steps + Reads(c, |Run(steps).clients[c].queue|));
            c in after.clients && after.clients[c].received == HandedTo(Run(steps), c) && after.clients[c].queue == []
  {
    ReadingDrains(steps, c, |Run(steps).clients[c].queue|);
  }

  // ---------------------------------------------------------------- publications that overlap

  /** `j` is handed to the client before `i` is. */
  ghost predicate HandedBefore(all: seq<nat>, j: nat, i: nat) {
    exists p, q :: 0 <= p < q < |all| && all[p] == j && all[q] == i
  }

  /** The call of `i` is in nobody's way and has `c` ahead of it. */
  ghost predicate Sending(h: Hub, i: nat, c: ClientId) {
    Ahead(h, i, c) && h.calls[Publish(i)].closing.None?
  }

  lemma RunAppend2(steps: seq<Step>, a: Step, b: Step)
    ensures Run(steps + [a, b]) == Apply(Apply(Run(steps), a), b)
  {
    assert (steps + [a, b])[..|steps| + 1] == steps + [a];
    assert (steps + [a])[..|steps|] == steps;
  }

  /** A sending call at an open client with room hands its message over and leaves the other calls as they were. */
  lemma SendsOne(steps: seq<Step>, i: nat, c: ClientId)
    requires var h := Run(steps); Sending(h, i, c) && c in h.clients && Accepts(h.clients[c])
    ensures var h, after := Run(steps), Run(steps + [CountPublished(i), Send(i, c)]);
            && c in after.clients && HandedTo(after, c) == HandedTo(h, c) + [i]
            && after.clients[c] == h.clients[c].(queue := h.clients[c].queue + [i])
            && forall id :: id != Publish(i) ==> (id in after.calls <==> id in h.calls) && (id in h.calls ==> after.calls[id] == h.calls[id])
  {
    RunAppend2(steps, CountPublished(i), Send(i, c));
    var h := Run(steps);
    assert CanSend(Apply(h, CountPublished(i)), i, c);
  }

  lemma TurnOrder(steps: seq<Step>, i: nat, j: nat, c: ClientId) returns (more: seq<Step>)
    requires var h := Run(steps); i < j && Sending(h, i, c) && Sending(h, j, c) && c in h.clients
    requires !Run(steps).clients[c].closed && |Run(steps).clients[c].queue| + 2 <= Run(steps).clients[c].capacity
    ensures more == [CountPublished(j), Send(j, c)] + [CountPublished(i), Send(i, c)]
    ensures HandedTo(Run(steps + more), c) == HandedTo(Run(steps), c) + [j, i]
  {
    more := [CountPublished(j), Send(j, c)] + [CountPublished(i), Send(i, c)];
    SendsOne(steps, j, c);
    SendsOne(steps + [CountPublished(j), Send(j, c)], i, c);
    assert steps + more == steps + [CountPublished(j), Send(j, c)] + [CountPublished(i), Send(i, c)];
    assert HandedTo(Run(steps), c) + [j, i] == HandedTo(Run(steps), c) + [j] + [i];
  }

  /**
   In any state of any run in which publication `j` is sending and has an open client with room for two
   ahead of it, the client may yet be handed `j` before the earlier `i` if and only if `i` has the client
   ahead of it as well. (A call that is closing another client goes on to send when it is through.)
   */
  lemma OrderMayTurnIff(steps: seq<Step>, i: nat, j: nat, c: ClientId)
    requires var h := Run(steps); i < j && Sending(h, j, c) && (Ahead(h, i, c) ==> Sending(h, i, c)) && c in h.clients
    requires !Run(steps).clients[c].closed && |Run(steps).clients[c].queue| + 2 <= Run(steps).clients[c].capacity
    ensures (exists more :: HandedBefore(HandedTo(Run(steps + more), c), j, i)) <==> Ahead(Run(steps), i, c)
  {
    var h := Run(steps);
    EveryRunAgrees(steps);
    assert Due(h, c, j) && j !in HandedTo(h, c);
    if Ahead(h, i, c) {
      var more := TurnOrder(steps, i, j, c);
      var all, n := HandedTo(Run(steps + more), c), |HandedTo(h, c)|;
      assert all[n] == j && all[n + 1] == i;
    } else {
      forall more ensures !HandedBefore(HandedTo(Run(steps + more), c), j, i) { NeverTurns(steps, more, i, j, c); }
    }
  }

  lemma NeverTurns(steps: seq<Step>, more: seq<Step>, i: nat, j: nat, c: ClientId)
    requires Past(Run(steps), i, c) && j !in HandedTo(Run(steps), c)
    ensures !HandedBefore(HandedTo(Run(steps + more), c), j, i)
  {
    assert (steps + more)[..|steps|] == steps;
    PastIsHandedNoMore(steps + more, |steps|, i, c);
    var before, all := HandedTo(Run(steps), c), HandedTo(Run(steps + more), c);
    forall k | |before| <= k < |all| ensures all[k] != i { assert all[|before|..][k - |before|] == all[k]; }
    forall k | 0 <= k < |before| ensures all[k] != j { assert all[k] in before; }
  }

  lemma RunAppend(steps: seq<Step>, step: Step)
    ensures Run(steps + [step]) == Apply(Run(steps), step)
  {
    assert (steps + [step])[..|steps|] == steps;
  }

  const S := Scope(1, 1)

  function Begun(): seq<Step> {
    [Subscribe(5, S, 0)] + [BeginPublish(S)] + [BeginPublish(S)]
  }

  const READER := Client(S, DEFAULT_BUFFER, 0, Open, false, false, [], [], false)
  const SENDING := Call({5}, false, None, false)

  lemma BegunRun()
    ensures Run(Begun()) == Hub(map[5 := READER], map[S := {5}], [S, S], map[Publish(0) := SENDING, Publish(1) := SENDING], 0, 0, 0, 0, 0, false)
  {
    var subscribe := Subscribe(5, S, 0);
    RunAppend([], subscribe);
    assert [] + [subscribe] == [subscribe];
    assert Run([subscribe]) == Hub(map[5 := READER], map[S := {5}], [], map[], 0, 0, 0, 0, 0, false) by {
      assert InScope(map[], S) + {5} == {5};
    }
    RunAppend([subscribe], BeginPublish(S));
    assert Run([subscribe] + [BeginPublish(S)]) == Hub(map[5 := READER], map[S := {5}], [S], map[Publish(0) := SENDING], 0, 0, 0, 0, 0, false);
    RunAppend([subscribe] + [BeginPublish(S)], BeginPublish(S));
  }

  /** So it is for the two publications just begun to a new client: the later one may be handed over first. */
  lemma OverlapTurnsOrder()
    ensures var steps := Begun() + [CountPublished(1), Send(1, 5)] + [CountPublished(0), Send(0, 5)]; HandedTo(Run(steps), 5) == [1, 0]
  {
    BegunRun();
    var more := TurnOrder(Begun(), 0, 1, 5);
    assert Begun() + more == Begun() + [CountPublished(1), Send(1, 5)] + [CountPublished(0), Send(0, 5)];
  }
}
