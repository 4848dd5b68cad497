/** Calls in flight can always be completed: no lock section waits for another for ever, and none for a reader. */
module HubProgress {
  import opened Common
  import opened HubProtocol

  /** A section of a call already in flight; nothing begins, and nobody reads. */
  predicate Continues(step: Step) {
    step.CountAccepted? || step.CountPublished? || step.Send? || step.EnterOnce? || step.AdvanceOnce? || step.Return?
  }

  ghost predicate OnlyContinues(steps: seq<Step>) {
    forall k :: 0 <= k < |steps| ==> Continues(steps[k])
  }

  function Play(h: Hub, steps: seq<Step>): Hub
    decreases |steps|
  {
    if steps == [] then h else Play(Apply(h, steps[0]), steps[1..])
  }

  lemma {:induction false} PlayAppend(h: Hub, a: seq<Step>, b: seq<Step>)
    ensures Play(h, a + b) == Play(Play(h, a), b)
    decreases |a|
  {
    if a == [] {
      assert a + b == b;
    } else {
      assert (a + b)[1..] == a[1..] + b;
      PlayAppend(Apply(h, a[0]), a[1..], b);
    }
  }

  lemma {:induction false} RunPlays(steps: seq<Step>, more: seq<Step>)
    ensures Run(steps + more) == Play(Run(steps), more)
    decreases |more|
  {
    if more == [] {
      assert steps + more == steps;
    } else {
      assert (steps + [more[0]])[..|steps|] == steps && steps + [more[0]] + more[1..] == steps + more;
      RunPlays(steps + [more[0]], more[1..]);
    }
  }

  /** Only publications have clients to send to, or a counter to raise. */
  ghost predicate CallsFormed(h: Hub) {
    forall id :: id in h.calls && id.Unsubscribe? ==> h.calls[id].counted && h.calls[id].remaining == {}
  }

  ghost predicate Sound(h: Hub) {
    DeliveryAgrees(h) && CallsFormed(h)
  }

  lemma StepFormed(h: Hub, step: Step)
    requires CallsFormed(h)
    ensures CallsFormed(Apply(h, step))
  {
  }

  lemma StepSound(h: Hub, step: Step)
    requires Sound(h)
    ensures Sound(Apply(h, step))
  {
    StepMap(h, step);
    StepOnce(h, step);
    StepDelivers(h, step);
    StepFormed(h, step);
  }

  lemma {:induction false} EveryRunSound(steps: seq<Step>)
    ensures Sound(Run(steps))
  {
    if steps != [] {
      EveryRunSound(steps[..|steps| - 1]);
      StepSound(Run(steps[..|steps| - 1]), steps[|steps| - 1]);
    }
  }

  /** One step and then more. */
  lemma First(h: Hub, step: Step, rest: seq<Step>)
    requires Sound(h) && Continues(step) && OnlyContinues(rest)
    ensures Sound(Apply(h, step)) && OnlyContinues([step] + rest) && Play(h, [step] + rest) == Play(Apply(h, step), rest)
  {
    StepSound(h, step);
    assert ([step] + rest)[1..] == rest;
  }

  lemma Then(h: Hub, a: seq<Step>, b: seq<Step>)
    requires OnlyContinues(a) && OnlyContinues(b)
    ensures OnlyContinues(a + b) && Play(h, a + b) == Play(Play(h, a), b)
  {
    PlayAppend(h, a, b);
  }

  // ---------------------------------------------------------------- out of closeOnce

  function Rank(stage: Stage): nat {
    match stage case Removing => 3 case Closing => 2 case Counting => 1 case _ => 0
  }

  function Through(h: Hub, id: CallId): map<CallId, Call>
    requires id in h.calls
  {
    h.calls[id := h.calls[id].(closing := None, inside := false)]
  }

  /** The call inside `closeOnce` comes out of it. */
  lemma {:induction false} LeaveOnce(h: Hub, id: CallId, c: ClientId) returns (more: seq<Step>)
    requires Sound(h) && Holds(h, id, c)
    ensures OnlyContinues(more) && Sound(Play(h, more)) && Play(h, more).calls == Through(h, id)
    decreases Rank(h.clients[c].stage)
  {
    var step := AdvanceOnce(id);
    var after := Apply(h, step);
    StepSound(h, step);
    AdvanceMovesClient(h, id, after, c);
    var rest: seq<Step> := [];
    if h.clients[c].stage != Counting {
      rest := LeaveOnce(after, id, c);
    }
    First(h, step, rest);
    more := [step] + rest;
  }

  /** A call that finds its client open goes in and comes out; one that finds it gone passes by. */
  lemma EnterAndLeave(h: Hub, id: CallId, c: ClientId) returns (more: seq<Step>)
    requires Sound(h) && id in h.calls && h.calls[id].closing == Some(c) && !h.calls[id].inside
    requires c in h.clients && (h.clients[c].stage == Open || h.clients[c].stage == Gone)
    ensures OnlyContinues(more) && Sound(Play(h, more)) && Play(h, more).calls == Through(h, id)
  {
    var step := EnterOnce(id);
    var after := Apply(h, step);
    assert after == EnterStep(h, id);
    StepSound(h, step);
    var rest: seq<Step> := [];
    if h.clients[c].stage == Open {
      assert after.calls == h.calls[id := h.calls[id].(inside := true)];
      assert Holds(after, id, c);
      rest := LeaveOnce(after, id, c);
    }
    First(h, step, rest);
    more := [step] + rest;
  }

  /** A call that is closing a client comes through, unless another call is inside `closeOnce` for that client. */
  lemma CloseThrough(h: Hub, id: CallId, c: ClientId) returns (more: seq<Step>)
    requires Sound(h) && id in h.calls && h.calls[id].closing == Some(c) && (h.calls[id].inside || !InOnce(h.clients[c].stage))
    ensures OnlyContinues(more) && Sound(Play(h, more)) && Play(h, more).calls == Through(h, id)
  {
    if h.calls[id].inside {
      assert Holds(h, id, c);
      more := LeaveOnce(h, id, c);
    } else {
      more := EnterAndLeave(h, id, c);
    }
  }

  function Closers(h: Hub): set<CallId> {
    set id | id in h.calls && h.calls[id].closing.Some?
  }

  ghost predicate NobodyCloses(h: Hub) {
    forall id :: id in h.calls ==> h.calls[id].closing.None? && !h.calls[id].inside
  }

  /** Some closing call can go on: one that is inside, or any when nobody is. */
  lemma SomeCloserGoesOn(h: Hub) returns (id: CallId)
    requires Sound(h) && Closers(h) != {}
    ensures id in Closers(h) && (h.calls[id].inside || !InOnce(h.clients[h.calls[id].closing.value].stage))
  {
    if held :| held in h.calls && h.calls[held].inside {
      id := held;
    } else {
      id :| id in Closers(h);
      var c := h.calls[id].closing.value;
      assert forall other :: !Holds(h, other, c);
    }
  }

  lemma {:induction false} ClosersThrough(h: Hub) returns (more: seq<Step>)
    requires Sound(h)
    ensures OnlyContinues(more) && Sound(Play(h, more)) && NobodyCloses(Play(h, more))
    decreases |Closers(h)|
  {
    more := [];
    if Closers(h) == {} {
      forall id | id in h.calls ensures h.calls[id].closing.None? { assert id !in Closers(h); }
    } else {
      var id := SomeCloserGoesOn(h);
      var through := CloseThrough(h, id, h.calls[id].closing.value);
      var after := Play(h, through);
      assert Closers(after) == Closers(h) - {id};
      var rest := ClosersThrough(after);
      Then(h, through, rest);
      more := through + rest;
    }
  }

  // ---------------------------------------------------------------- to the end of a call

  /** With nobody closing, one client is sent to, and closed if it has no room. */
  lemma SendThrough(h: Hub, i: nat, c: ClientId) returns (more: seq<Step>)
    requires Sound(h) && NobodyCloses(h) && Publish(i) in h.calls && h.calls[Publish(i)].counted && c in h.calls[Publish(i)].remaining
    ensures OnlyContinues(more) && Sound(Play(h, more))
    ensures Play(h, more).calls == h.calls[Publish(i) := h.calls[Publish(i)].(remaining := h.calls[Publish(i)].remaining - {c})]
  {
    var id := Publish(i);
    assert Due(h, c, i) && CanSend(h, i, c);
    assert !InOnce(h.clients[c].stage) by { assert forall other :: !Holds(h, other, c); }
    var step := Send(i, c);
    var after := Apply(h, step);
    assert after == SendStep(h, i, c);
    StepSound(h, step);
    var rest: seq<Step> := [];
    if !Accepts(h.clients[c]) {
      rest := CloseThrough(after, id, c);
    }
    First(h, step, rest);
    more := [step] + rest;
  }

  lemma {:induction false} SendToAll(h: Hub, id: CallId) returns (more: seq<Step>)
    requires Sound(h) && NobodyCloses(h) && id in h.calls && h.calls[id].counted
    ensures OnlyContinues(more) && Sound(Play(h, more)) && Play(h, more).calls == h.calls[id := h.calls[id].(remaining := {})]
    decreases |h.calls[id].remaining|
  {
    var call := h.calls[id];
    more := [];
    if call.remaining != {} {
      var c :| c in call.remaining;
      var sent := SendThrough(h, id.message, c);
      var after := Play(h, sent);
      assert call.remaining - {c} < call.remaining;
      var rest := SendToAll(after, id);
      Then(h, sent, rest);
      more := sent + rest;
    }
  }

  lemma Alone(h: Hub, step: Step) returns (more: seq<Step>)
    requires Sound(h) && Continues(step)
    ensures OnlyContinues(more) && Sound(Play(h, more)) && Play(h, more) == Apply(h, step)
  {
    First(h, step, []);
    more := [step] + [];
  }

  lemma CountCall(h: Hub, id: CallId) returns (more: seq<Step>)
    requires Sound(h) && NobodyCloses(h) && id in h.calls
    ensures OnlyContinues(more) && Sound(Play(h, more)) && NobodyCloses(Play(h, more))
    ensures Play(h, more).calls == h.calls[id := h.calls[id].(counted := true)]
  {
    if h.calls[id].counted {
      more := [];
      assert h.calls == h.calls[id := h.calls[id]];
    } else {
      more := Alone(h, CountPublished(id.message));
    }
  }

  /** With nobody closing, a call is taken to its end; the other calls stay as they are. */
  lemma CompleteCall(h: Hub, id: CallId) returns (more: seq<Step>)
    requires Sound(h) && NobodyCloses(h) && id in h.calls
    ensures OnlyContinues(more) && Sound(Play(h, more)) && Play(h, more).calls == h.calls - {id}
  {
    var count := CountCall(h, id);
    var rest := SendAndReturn(Play(h, count), id);
    Then(h, count, rest);
    more := count + rest;
  }

  lemma SendAndReturn(h: Hub, id: CallId) returns (more: seq<Step>)
    requires Sound(h) && NobodyCloses(h) && id in h.calls && h.calls[id].counted
    ensures OnlyContinues(more) && Sound(Play(h, more)) && Play(h, more).calls == h.calls - {id}
  {
    var sends := SendToAll(h, id);
    var sent := Play(h, sends);
    assert Finished(sent.calls[id]);
    var end := Alone(sent, Return(id));
    Then(h, sends, end);
    more := sends + end;
  }

  lemma {:induction false} CompleteAll(h: Hub) returns (more: seq<Step>)
    requires Sound(h) && NobodyCloses(h)
    ensures OnlyContinues(more) && Sound(Play(h, more)) && Play(h, more).calls == map[]
    decreases |h.calls.Keys|
  {
    more := [];
    if h.calls != map[] {
      var id :| id in h.calls;
      var one := CompleteCall(h, id);
      var after := Play(h, one);
      assert after.calls.Keys == h.calls.Keys - {id};
      var rest := CompleteAll(after);
      Then(h, one, rest);
      more := one + rest;
    }
  }

  function Uncounted(h: Hub): set<ClientId> {
    set c | c in h.clients && !h.clients[c].counted
  }

  lemma {:induction false} CountAll(h: Hub) returns (more: seq<Step>)
    requires Sound(h) && h.calls == map[]
    ensures OnlyContinues(more) && Quiet(Play(h, more))
    decreases |Uncounted(h)|
  {
    more := [];
    if Uncounted(h) == {} {
      forall c | c in h.clients ensures h.clients[c].counted { assert c !in Uncounted(h); }
    } else {
      var c :| c in Uncounted(h);
      var after := Apply(h, CountAccepted(c));
      StepSound(h, CountAccepted(c));
      assert Uncounted(after) == Uncounted(h) - {c};
      var rest := CountAll(after);
      First(h, CountAccepted(c), rest);
      more := [CountAccepted(c)] + rest;
    }
  }

  /**
   From every state of every run the calls in flight can be taken to their end by steps of their own, with
   no client reading and no new call: nothing deadlocks. QuietMeansDelivered then says what clients have.
   */
  lemma EveryRunCanComplete(steps: seq<Step>) returns (more: seq<Step>)
    ensures OnlyContinues(more) && Quiet(Run(steps + more))
  {
    EveryRunSound(steps);
    var h := Run(steps);
    var a := ClosersThrough(h);
    var b := CompleteAll(Play(h, a));
    var c := CountAll(Play(Play(h, a), b));
    Then(h, a, b);
    Then(h, a + b, c);
    more := a + b + c;
    RunPlays(steps, more);
  }
}
