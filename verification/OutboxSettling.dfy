/**
 Settled rows are final where leases outlast passes, and the number of claims of a row is bounded unless
 the pass that drew its last attempt is dropped; with runs in which either fails.
 */
module OutboxSettling {
  import opened Common
  import opened Outbox
  import opened OutboxProtocol
  import opened OutboxRetry
  import opened OutboxDelivery

  /** Each job is the last claim of a row that is still processing. */
  ghost predicate HeldRows(s: State) {
    forall j :: j in s.jobs ==>
      && j.0 < |s.records| && s.records[j.0].status == Processing && j.1 == s.records[j.0].attempts && j.1 >= 1
      && (s.jobs[j].Undecodable? ==> !s.records[j.0].decodes)
  }

  lemma ClaimHolds(cfg: Config, s: State, step: Step)
    requires HeldRows(s) && step.Claim? && ExclusiveStep(cfg, s, step)
    ensures HeldRows(Apply(cfg, s, step))
  {
    var chosen := Chosen(cfg, s.records, step.skip, step.limit, step.now, |s.records|);
    var after, started := Apply(cfg, s, step), FreshJobs(cfg, s, chosen);
    forall j | j in after.jobs
      ensures j.0 < |after.records| && after.records[j.0].status == Processing && j.1 == after.records[j.0].attempts && j.1 >= 1
      ensures after.jobs[j].Undecodable? ==> !after.records[j.0].decodes {
      if j in started { FreshJobsAre(cfg, s, chosen, j); } else { assert j in s.jobs && j.0 !in chosen; }
    }
  }

  /** A job that ends was the only one of its row. */
  lemma EndHolds(s: State, job: JobId, committed: bool, r: Record)
    requires HeldRows(s) && Live(s, job) && r.decodes == s.records[job.0].decodes
    ensures HeldRows(Ended(s, job, committed, r))
  {
    forall j | j in Ended(s, job, committed, r).jobs ensures j.0 != job.0 {
      assert j in s.jobs && j != job;
    }
  }

  /** A worker that goes on with its consumers writes no row of the outbox and keeps its job. */
  lemma MoveLeavesRows(cfg: Config, s: State, step: Step)
    requires step.StartConsumer? || step.Handle? || step.MarkDone? || step.MarkErrored?
    ensures var after := Apply(cfg, s, step);
            && after.records == s.records && after.jobs.Keys == s.jobs.Keys
            && forall j :: j in after.jobs && after.jobs[j].Undecodable? ==> s.jobs[j].Undecodable?
  {
    match step
    case StartConsumer(_, _) =>
    case Handle(_, _) =>
    case MarkDone(_, outcome) => if outcome.Committed? {} else {}
    case _ =>
  }

  lemma StepHolds(cfg: Config, s: State, step: Step)
    requires HeldRows(s) && ExclusiveStep(cfg, s, step)
    ensures HeldRows(Apply(cfg, s, step))
  {
    match step
    case Claim(_, _, _, _) => ClaimHolds(cfg, s, step);
    case Enqueue(_, _, _, _, _) =>
    case RetryOrFail(j, now, committed) =>
      if Live(s, j) && s.jobs[j].Retrying? { EndHolds(s, j, committed, RetriedRow(cfg, s.records[j.0], j.1, now)); }
    case Finish(j, committed) => if Live(s, j) && s.jobs[j].Finishing? { EndHolds(s, j, committed, ProcessedRow(s.records[j.0])); }
    case FailUndecodable(j, committed) => if Live(s, j) && s.jobs[j].Undecodable? { EndHolds(s, j, committed, FailedRow(s.records[j.0])); }
    case Crash(_) =>
    case _ =>
      MoveLeavesRows(cfg, s, step);
  }

  lemma {:induction false} EveryExclusiveRunHolds(cfg: Config, steps: seq<Step>)
    requires Exclusive(cfg, steps)
    ensures HeldRows(Run(cfg, steps))
  {
    if steps != [] {
      EveryExclusiveRunHolds(cfg, steps[..|steps| - 1]);
      StepHolds(cfg, Run(cfg, steps[..|steps| - 1]), steps[|steps| - 1]);
    }
  }

  // ---------------------------------------------------------------- settled rows

  lemma {:induction false} ExclusivePrefix(cfg: Config, steps: seq<Step>, n: nat)
    requires Exclusive(cfg, steps) && n <= |steps|
    ensures Exclusive(cfg, steps[..n])
  {
    if n == |steps| {
      assert steps[..n] == steps;
    } else {
      assert steps[..|steps| - 1][..n] == steps[..n];
      ExclusivePrefix(cfg, steps[..|steps| - 1], n);
    }
  }

  /** When rows are reclaimed only from stopped holders, a processed or failed row never changes again. */
  lemma SettledIsFinal(cfg: Config, steps: seq<Step>, n: nat, i: nat)
    requires Exclusive(cfg, steps) && n <= |steps|
    requires i < |Run(cfg, steps[..n]).records| && Settled(Run(cfg, steps[..n]).records[i])
    ensures i < |Run(cfg, steps).records| && Run(cfg, steps).records[i] == Run(cfg, steps[..n]).records[i]
  {
    ExclusivePrefix(cfg, steps, n);
    EveryExclusiveRunHolds(cfg, steps[..n]);
    SettledAtRestIsFinal(cfg, steps, n, i, Run(cfg, steps[..n]).records[i]);
  }

  ghost predicate ProcessedAt(cfg: Config, steps: seq<Step>, m: nat, i: nat)
    requires m <= |steps|
  {
    i < |Run(cfg, steps[..m]).records| && Run(cfg, steps[..m]).records[i].status == Processed
  }

  ghost predicate StaleWriteAt(cfg: Config, steps: seq<Step>, m: nat, i: nat)
    requires m < |steps|
  {
    IsStaleWrite(cfg, Run(cfg, steps[..m]), steps[m], i)
  }

  ghost predicate ProcessedFrom(cfg: Config, steps: seq<Step>, n: nat, i: nat) {
    forall m :: n <= m <= |steps| ==> ProcessedAt(cfg, steps, m, i)
  }

  ghost predicate NoStaleWriteFrom(cfg: Config, steps: seq<Step>, n: nat, i: nat) {
    forall m :: n <= m < |steps| ==> !StaleWriteAt(cfg, steps, m, i)
  }

  lemma ProcessedFromRest(cfg: Config, steps: seq<Step>, n: nat, i: nat)
    requires n < |steps|
    ensures ProcessedFrom(cfg, steps, n, i) <==> ProcessedFrom(cfg, steps[..|steps| - 1], n, i) && ProcessedAt(cfg, steps, |steps|, i)
  {
    var rest := steps[..|steps| - 1];
    forall m | 0 <= m < |steps| ensures ProcessedAt(cfg, rest, m, i) == ProcessedAt(cfg, steps, m, i) { assert rest[..m] == steps[..m]; }
  }

  lemma NoStaleWriteFromRest(cfg: Config, steps: seq<Step>, n: nat, i: nat)
    requires n < |steps|
    ensures NoStaleWriteFrom(cfg, steps, n, i) <==> NoStaleWriteFrom(cfg, steps[..|steps| - 1], n, i) && !StaleWriteAt(cfg, steps, |steps| - 1, i)
  {
    var rest := steps[..|steps| - 1];
    forall m | 0 <= m < |rest| ensures StaleWriteAt(cfg, rest, m, i) == StaleWriteAt(cfg, steps, m, i) { assert rest[..m] == steps[..m]; }
  }

  /** In any run a processed row is processed at every later point if and only if no step since is a late write to it. */
  lemma {:induction false} StaysProcessedIff(cfg: Config, steps: seq<Step>, n: nat, i: nat)
    requires n <= |steps| && ProcessedAt(cfg, steps, n, i)
    ensures ProcessedFrom(cfg, steps, n, i) <==> NoStaleWriteFrom(cfg, steps, n, i)
  {
    if n < |steps| {
      var rest := steps[..|steps| - 1];
      assert rest[..n] == steps[..n];
      StaysProcessedIff(cfg, rest, n, i);
      ProcessedFromRest(cfg, steps, n, i);
      NoStaleWriteFromRest(cfg, steps, n, i);
      LastStepIff(cfg, steps, i);
      if ProcessedFrom(cfg, rest, n, i) { LastOfRest(cfg, steps, n, i); }
    }
  }

  lemma LastOfRest(cfg: Config, steps: seq<Step>, n: nat, i: nat)
    requires n < |steps| && ProcessedFrom(cfg, steps[..|steps| - 1], n, i)
    ensures ProcessedAt(cfg, steps, |steps| - 1, i)
  {
    var rest, last := steps[..|steps| - 1], |steps| - 1;
    assert ProcessedAt(cfg, rest, last, i) && rest[..last] == steps[..last];
  }

  lemma LastStepIff(cfg: Config, steps: seq<Step>, i: nat)
    requires steps != []
    ensures var last := |steps| - 1;
            ProcessedAt(cfg, steps, last, i) ==> (ProcessedAt(cfg, steps, |steps|, i) <==> !StaleWriteAt(cfg, steps, last, i))
  {
    var last := |steps| - 1;
    assert steps[..|steps|] == steps;
    if ProcessedAt(cfg, steps, last, i) {
      ApplyExtends(cfg, Run(cfg, steps[..last]), steps[last]);
      ProcessedLeftOnlyByStaleWrite(cfg, Run(cfg, steps[..last]), steps[last], i);
    }
  }

  // ---------------------------------------------------------------- settling in time

  /** The job ends without its last update: its worker stops, or that update does not commit. */
  predicate Drops(s: State, step: Step, job: JobId) {
    && Live(s, job)
    && match step
       case Crash(j) => j == job
       case RetryOrFail(j, _, committed) => j == job && s.jobs[j].Retrying? && !committed
       case Finish(j, committed) => j == job && s.jobs[j].Finishing? && !committed
       case FailUndecodable(j, committed) => j == job && s.jobs[j].Undecodable? && !committed
       case _ => false
  }

  function Cap(cfg: Config): nat {
    if cfg.maxAttempts >= 1 then cfg.maxAttempts else 1
  }

  /** The pass over row `i` that drew its last attempt was dropped. */
  ghost predicate LastPassDropped(cfg: Config, steps: seq<Step>, i: nat) {
    && steps != []
    && (LastPassDropped(cfg, steps[..|steps| - 1], i) || Drops(Run(cfg, steps[..|steps| - 1]), steps[|steps| - 1], (i, Cap(cfg))))
  }

  ghost predicate Unheld(s: State, i: nat) {
    forall j :: j in s.jobs ==> j.0 != i
  }

  /** Where row `i` may stand, given whether its last pass was dropped. */
  ghost predicate RowTended(cfg: Config, s: State, i: nat, dropped: bool)
    requires i < |s.records|
  {
    var r := s.records[i];
    && (r.attempts > 0 ==> Routed(cfg, r))
    && (r.attempts > Cap(cfg) ==> dropped)
    && (r.status == Pending ==> r.attempts < Cap(cfg))
    && (r.status == Processing && r.attempts == Cap(cfg) ==> dropped || (i, Cap(cfg)) in s.jobs)
    && (r.status == Failed && r.decodes ==> r.attempts >= Cap(cfg))
    && (dropped ==> r.attempts > Cap(cfg) || (r.attempts == Cap(cfg) && r.status == Processing && Unheld(s, i)))
  }

  ghost predicate Tended(cfg: Config, s: State, i: nat, dropped: bool) {
    HeldRows(s) && if i < |s.records| then RowTended(cfg, s, i, dropped) else !dropped
  }

  lemma ChosenTends(cfg: Config, s: State, after: State, i: nat, dropped: bool, now: Time, worker: string)
    requires Tended(cfg, s, i, dropped) && i < |s.records| == |after.records| && Claimable(cfg, s.records[i], now) && Unheld(s, i)
    requires after.records[i] == ClaimedRow(s.records[i], now, worker) && (i, s.records[i].attempts + 1) in after.jobs
    ensures RowTended(cfg, after, i, dropped)
  {
  }

  /** A row that no step of a claim takes. */
  lemma SkippedTends(cfg: Config, s: State, after: State, i: nat, dropped: bool)
    requires Tended(cfg, s, i, dropped) && i < |s.records| <= |after.records| && after.records[i] == s.records[i]
    requires forall j: JobId :: j.0 == i ==> (j in after.jobs <==> j in s.jobs)
    ensures RowTended(cfg, after, i, dropped)
  {
  }

  /** The jobs of one row after a claim. */
  lemma ClaimedJobs(cfg: Config, s: State, chosen: seq<nat>, i: nat)
    requires i < |s.records|
    ensures i in chosen ==> (i, s.records[i].attempts + 1) in s.jobs + FreshJobs(cfg, s, chosen)
    ensures i !in chosen ==> forall j: JobId :: j.0 == i ==> (j in s.jobs + FreshJobs(cfg, s, chosen) <==> j in s.jobs)
  {
    var started := FreshJobs(cfg, s, chosen);
    if i in chosen { assert NameOf(s, i) in started; }
    forall j | j in started ensures j.0 in chosen { FreshJobsAre(cfg, s, chosen, j); }
  }

  lemma ClaimTends(cfg: Config, s: State, step: Step, i: nat, dropped: bool)
    requires Tended(cfg, s, i, dropped) && step.Claim? && ExclusiveStep(cfg, s, step) && i < |s.records|
    ensures i < |Apply(cfg, s, step).records|
    ensures RowTended(cfg, Apply(cfg, s, step), i, dropped)
  {
    var chosen := Chosen(cfg, s.records, step.skip, step.limit, step.now, |s.records|);
    var after := Apply(cfg, s, step);
    ClaimedJobs(cfg, s, chosen, i);
    if i in chosen {
      ChosenIsOldestFirst(cfg, s.records, step.skip, step.limit, step.now, |s.records|);
      ChosenTends(cfg, s, after, i, dropped, step.now, step.worker);
    } else {
      SkippedTends(cfg, s, after, i, dropped);
    }
  }

  /** A pass ends by the last claim of its row, so the row's own attempts decide; without its last update the row stays processing. */
  lemma EndTends(cfg: Config, s: State, job: JobId, committed: bool, r: Record, now: Time, i: nat, dropped: bool)
    requires Tended(cfg, s, i, dropped) && Live(s, job) && i < |s.records|
    requires r == ProcessedRow(s.records[job.0]) || r == RetriedRow(cfg, s.records[job.0], job.1, now)
             || (!s.records[job.0].decodes && r == FailedRow(s.records[job.0]))
    ensures RowTended(cfg, Ended(s, job, committed, r), i, dropped || (!committed && job == (i, Cap(cfg))))
  {
    var after := Ended(s, job, committed, r);
    if job.0 == i {
      forall j | j in after.jobs ensures j.0 != i { assert j in s.jobs && j != job; }
    }
  }

  lemma CrashTends(cfg: Config, s: State, job: JobId, i: nat, dropped: bool)
    requires Tended(cfg, s, i, dropped) && Live(s, job) && i < |s.records|
    ensures RowTended(cfg, Apply(cfg, s, Crash(job)), i, dropped || job == (i, Cap(cfg)))
  {
    var after := Apply(cfg, s, Crash(job));
    if job.0 == i {
      forall j | j in after.jobs ensures j.0 != i { assert j in s.jobs && j != job; }
    }
  }

  lemma StepTends(cfg: Config, s: State, step: Step, i: nat, dropped: bool)
    requires Tended(cfg, s, i, dropped) && ExclusiveStep(cfg, s, step)
    ensures Tended(cfg, Apply(cfg, s, step), i, dropped || Drops(s, step, (i, Cap(cfg))))
  {
    StepHolds(cfg, s, step);
    if i < |s.records| { RowStepTends(cfg, s, step, i, dropped); }
  }

  lemma RowStepTends(cfg: Config, s: State, step: Step, i: nat, dropped: bool)
    requires Tended(cfg, s, i, dropped) && ExclusiveStep(cfg, s, step) && i < |s.records|
    ensures i < |Apply(cfg, s, step).records|
    ensures RowTended(cfg, Apply(cfg, s, step), i, dropped || Drops(s, step, (i, Cap(cfg))))
  {
    match step
    case Claim(_, _, _, _) => ClaimTends(cfg, s, step, i, dropped);
    case RetryOrFail(_, _, _) => LastUpdateTends(cfg, s, step, i, dropped);
    case Finish(_, _) => LastUpdateTends(cfg, s, step, i, dropped);
    case FailUndecodable(_, _) => LastUpdateTends(cfg, s, step, i, dropped);
    case Crash(j) => if Live(s, j) { CrashTends(cfg, s, j, i, dropped); }
    case Enqueue(_, _, _, _, _) => SkippedTends(cfg, s, Apply(cfg, s, step), i, dropped);
    case _ =>
      MoveLeavesRows(cfg, s, step);
      SkippedTends(cfg, s, Apply(cfg, s, step), i, dropped);
  }

  lemma LastUpdateTends(cfg: Config, s: State, step: Step, i: nat, dropped: bool)
    requires Tended(cfg, s, i, dropped) && i < |s.records| && (step.RetryOrFail? || step.Finish? || step.FailUndecodable?)
    ensures i < |Apply(cfg, s, step).records|
    ensures RowTended(cfg, Apply(cfg, s, step), i, dropped || Drops(s, step, (i, Cap(cfg))))
  {
    match step
    case RetryOrFail(j, now, committed) =>
      if Live(s, j) && s.jobs[j].Retrying? { EndTends(cfg, s, j, committed, RetriedRow(cfg, s.records[j.0], j.1, now), now, i, dropped); }
    case Finish(j, committed) =>
      if Live(s, j) && s.jobs[j].Finishing? { EndTends(cfg, s, j, committed, ProcessedRow(s.records[j.0]), 0, i, dropped); }
    case FailUndecodable(j, committed) =>
      if Live(s, j) && s.jobs[j].Undecodable? { EndTends(cfg, s, j, committed, FailedRow(s.records[j.0]), 0, i, dropped); }
  }

  lemma {:induction false} EveryExclusiveRunTends(cfg: Config, steps: seq<Step>, i: nat)
    requires Exclusive(cfg, steps)
    ensures Tended(cfg, Run(cfg, steps), i, LastPassDropped(cfg, steps, i))
  {
    if steps != [] {
      var rest, last := steps[..|steps| - 1], steps[|steps| - 1];
      EveryExclusiveRunTends(cfg, rest, i);
      StepTends(cfg, Run(cfg, rest), last, i, LastPassDropped(cfg, rest, i));
    }
  }

  /**
   When leases outlast passes, maxAttempts bounds the claims a row takes, and a row that has taken them
   and is held by nobody is settled, provided the one pass that drew the last attempt is not dropped.
   Every other pass of the row, and all of other rows, may crash or lose their updates.
   */
  lemma SettlesWithinMaxAttempts(cfg: Config, steps: seq<Step>, i: nat)
    requires Exclusive(cfg, steps) && i < |Run(cfg, steps).records| && !LastPassDropped(cfg, steps, i)
    ensures ClaimsOf(cfg, steps, i) <= Cap(cfg)
    ensures ClaimsOf(cfg, steps, i) == Cap(cfg) && Unheld(Run(cfg, steps), i) ==> Settled(Run(cfg, steps).records[i])
  {
    EveryExclusiveRunTends(cfg, steps, i);
    AttemptsCountClaims(cfg, steps, i);
  }

  /**
   A decodable row one of whose consumers has never succeeded is settled, once nobody holds it, if and
   only if it has taken that many claims, and it is then failed.
   */
  lemma FailsAtMaxAttempts(cfg: Config, steps: seq<Step>, i: nat, c: string)
    requires Exclusive(cfg, steps) && i < |Run(cfg, steps).records| && !LastPassDropped(cfg, steps, i) && Unheld(Run(cfg, steps), i)
    requires Run(cfg, steps).records[i].decodes && c in ConsumersOf(cfg, Run(cfg, steps).records[i])
    requires Count(Run(cfg, steps).successes, (c, Run(cfg, steps).records[i].event)) == 0
    ensures Settled(Run(cfg, steps).records[i]) <==> ClaimsOf(cfg, steps, i) == Cap(cfg)
    ensures Settled(Run(cfg, steps).records[i]) ==> Run(cfg, steps).records[i].status == Failed
  {
    SettlesWithinMaxAttempts(cfg, steps, i);
    EveryExclusiveRunTends(cfg, steps, i);
    AttemptsCountClaims(cfg, steps, i);
    if Run(cfg, steps).records[i].status == Processed { ProcessedMeansHandled(cfg, steps, i, c); }
  }

  // ---------------------------------------------------------------- when the bound breaks

  /** With this step after the run the row has been claimed more often than maxAttempts. */
  ghost predicate Exceeds(cfg: Config, steps: seq<Step>, step: Step, i: nat) {
    ClaimsOf(cfg, steps + [step], i) > Cap(cfg)
  }

  lemma ExceedsWhenClaimed(cfg: Config, steps: seq<Step>, step: Step, i: nat)
    requires ClaimsOf(cfg, steps, i) <= Cap(cfg)
    ensures var s := Run(cfg, steps);
            Exceeds(cfg, steps, step, i) <==>
            ClaimsOf(cfg, steps, i) == Cap(cfg) && step.Claim? && i in Chosen(cfg, s.records, step.skip, step.limit, step.now, |s.records|)
  {
    assert (steps + [step])[..|steps|] == steps;
  }

  function Below(n: nat): (r: set<nat>)
    ensures forall k :: k in r <==> 0 <= k < n
  {
    if n == 0 then {} else Below(n - 1) + {n - 1}
  }

  /** A claim that finds every other row locked. */
  function ClaimOf(s: State, i: nat, now: Time): Step {
    Claim("worker", now, Below(|s.records|) - {i}, 1)
  }

  lemma ClaimTakesOne(cfg: Config, s: State, i: nat, now: Time)
    requires i < |s.records| && Claimable(cfg, s.records[i], now)
    ensures var step := ClaimOf(s, i, now); Chosen(cfg, s.records, step.skip, step.limit, step.now, |s.records|) == [i]
  {
    var step := ClaimOf(s, i, now);
    var c := Chosen(cfg, s.records, step.skip, step.limit, step.now, |s.records|);
    ChosenIsOldestFirst(cfg, s.records, step.skip, step.limit, step.now, |s.records|);
    assert forall k :: 0 <= k < |c| ==> c[k] in c;
  }

  /** A row at its last attempt that is processing is claimed once more when its lease has run out. */
  lemma ClaimPastTheBound(cfg: Config, steps: seq<Step>, i: nat) returns (step: Step)
    requires i < |Run(cfg, steps).records| && ClaimsOf(cfg, steps, i) == Cap(cfg)
    requires Run(cfg, steps).records[i].status == Processing && Routed(cfg, Run(cfg, steps).records[i])
    ensures Exceeds(cfg, steps, step, i)
    ensures Unheld(Run(cfg, steps), i) ==> ExclusiveStep(cfg, Run(cfg, steps), step)
  {
    var s := Run(cfg, steps);
    var now := ClaimableFrom(cfg, s.records[i]);
    UnsettledStaysClaimable(cfg, steps, i, now);
    step := ClaimOf(s, i, now);
    ClaimTakesOne(cfg, s, i, now);
    ExceedsWhenClaimed(cfg, steps, step, i);
  }

  /**
   The exact condition, for every run of such claims that is still within the bound. A next claim of the
   same kind can exceed it if and only if the last pass was dropped; a next claim of any kind, if and only
   if that pass was dropped or is still at work, so that its lease runs out first.
   */
  lemma BoundBreaksIff(cfg: Config, steps: seq<Step>, i: nat)
    requires Exclusive(cfg, steps) && i < |Run(cfg, steps).records| && ClaimsOf(cfg, steps, i) <= Cap(cfg)
    ensures (exists step :: ExclusiveStep(cfg, Run(cfg, steps), step) && Exceeds(cfg, steps, step, i)) <==> LastPassDropped(cfg, steps, i)
    ensures (exists step :: Exceeds(cfg, steps, step, i)) <==> LastPassDropped(cfg, steps, i) || (i, Cap(cfg)) in Run(cfg, steps).jobs
  {
    var s := Run(cfg, steps);
    EveryExclusiveRunTends(cfg, steps, i);
    AttemptsCountClaims(cfg, steps, i);
    if LastPassDropped(cfg, steps, i) || (i, Cap(cfg)) in s.jobs {
      var step := ClaimPastTheBound(cfg, steps, i);
      assert Exceeds(cfg, steps, step, i);
    }
    forall step | Exceeds(cfg, steps, step, i)
      ensures LastPassDropped(cfg, steps, i) || ((i, Cap(cfg)) in s.jobs && !ExclusiveStep(cfg, s, step)) {
      ExceedsWhenClaimed(cfg, steps, step, i);
      ChosenIsOldestFirst(cfg, s.records, step.skip, step.limit, step.now, |s.records|);
    }
  }

  // ---------------------------------------------------------------- runs that break the bound, or take a settled row back

  lemma RunAppend(cfg: Config, steps: seq<Step>, step: Step)
    ensures Run(cfg, steps + [step]) == Apply(cfg, Run(cfg, steps), step)
  {
    assert (steps + [step])[..|steps|] == steps;
  }

  /** One consumer, leases of 10 ms, and a run as given. */
  function ShortLeases(maxAttempts: nat): Config {
    Config(map["d" := ["c"]], maxAttempts, 1_000_000_000, 60_000_000_000, 10_000_000)
  }

  function Row(attempts: nat, status: Status, availableAt: Time, lock: Option<(Time, string)>): Record {
    Record(5, "t", "d", true, attempts, status, availableAt,
           if lock.Some? then Some(lock.value.0) else None, if lock.Some? then Some(lock.value.1) else None)
  }

  function Reclaimed(): seq<Step> {
    [Enqueue(5, "t", "d", true, 0)] + [Claim("a", 0, {}, 1)] + [Claim("b", 20, {}, 1)]
  }

  /** The row is claimed twice, the second time while the first worker still holds it. */
  lemma ReclaimedRun(cfg: Config)
    requires cfg.consumers == map["d" := ["c"]] && cfg.claimTimeout == 10_000_000
    ensures Run(cfg, [Enqueue(5, "t", "d", true, 0)] + [Claim("a", 0, {}, 1)])
         == State([Row(1, Processing, 0, Some((0, "a")))], map[], map[(0, 1) := AtConsumer(0)], map[], map[])
    ensures Run(cfg, Reclaimed())
         == State([Row(2, Processing, 0, Some((20, "b")))], map[], map[(0, 1) := AtConsumer(0), (0, 2) := AtConsumer(0)], map[], map[])
  {
    var s0: State := INITIAL;
    var enqueue := Enqueue(5, "t", "d", true, 0);
    RunAppend(cfg, [], enqueue);
    assert [] + [enqueue] == [enqueue];
    RunAppend(cfg, [enqueue], Claim("a", 0, {}, 1));
    RunAppend(cfg, [enqueue] + [Claim("a", 0, {}, 1)], Claim("b", 20, {}, 1));
    var s1 := Run(cfg, [enqueue]);
    assert s1.records == [Row(0, Pending, 0, None)];
    OneRowClaimed(cfg, s1, "a", 0);
    OneRowClaimed(cfg, Run(cfg, [enqueue] + [Claim("a", 0, {}, 1)]), "b", 20);
  }

  lemma OneRowChosen(cfg: Config, r: Record, now: Time)
    requires Claimable(cfg, r, now)
    ensures Chosen(cfg, [r], {}, 1, now, 1) == [0]
  {
    assert Chosen(cfg, [r], {}, 1, now, 0) == [];
  }

  lemma OneJobStarted(cfg: Config, s: State, r: Record)
    requires s.records == [r]
    ensures FreshJobs(cfg, s, [0]) == map[(0, r.attempts + 1) := FirstPc(cfg, r)]
  {
    var started := FreshJobs(cfg, s, [0]);
    assert 0 in [0] && NameOf(s, 0) in started;
    forall j | j in started ensures j == (0, r.attempts + 1) && started[j] == FirstPc(cfg, r) { FreshJobsAre(cfg, s, [0], j); }
  }

  lemma OneRowClaimed(cfg: Config, s: State, worker: string, now: Time)
    requires |s.records| == 1 && Claimable(cfg, s.records[0], now)
    ensures ClaimStep(cfg, s, worker, now, {}, 1)
         == s.(records := [ClaimedRow(s.records[0], now, worker)], jobs := s.jobs[(0, s.records[0].attempts + 1) := FirstPc(cfg, s.records[0])])
    ensures Chosen(cfg, s.records, {}, 1, now, 1) == [0]
  {
    var r := s.records[0];
    assert s.records == [r];
    OneRowChosen(cfg, r, now);
    OneJobStarted(cfg, s, r);
    OneRowUpdated(r, now, worker);
    JobAdded(s.jobs, (0, r.attempts + 1), FirstPc(cfg, r));
  }

  lemma JobAdded(jobs: map<JobId, Pc>, j: JobId, pc: Pc)
    ensures jobs + map[j := pc] == jobs[j := pc]
  {
  }

  lemma OneRowUpdated(r: Record, now: Time, worker: string)
    ensures ClaimedRows([r], [0], now, worker) == [ClaimedRow(r, now, worker)]
  {
  }

  lemma ReclaimedIsNotExclusive(cfg: Config)
    requires cfg.consumers == map["d" := ["c"]] && cfg.claimTimeout == 10_000_000
    ensures !Exclusive(cfg, Reclaimed())
  {
    ReclaimedRun(cfg);
    var before := [Enqueue(5, "t", "d", true, 0)] + [Claim("a", 0, {}, 1)];
    assert Reclaimed()[..2] == before && |Reclaimed()| == 3;
    var s := Run(cfg, before);
    OneRowClaimed(cfg, s, "b", 20);
    assert 0 in Chosen(cfg, s.records, {}, 1, 20, |s.records|) && (0, 1) in s.jobs;
    assert !ExclusiveStep(cfg, s, Reclaimed()[2]);
  }

  lemma DroppedAppend(cfg: Config, steps: seq<Step>, step: Step, i: nat)
    ensures LastPassDropped(cfg, steps + [step], i) <==> LastPassDropped(cfg, steps, i) || Drops(Run(cfg, steps), step, (i, Cap(cfg)))
  {
    assert (steps + [step])[..|steps|] == steps;
  }

  /** With overlapping leases a row can be claimed more often than maxAttempts, though every statement commits. */
  lemma OverlapBreaksTheBound()
    ensures var cfg := ShortLeases(1);
            && !LastPassDropped(cfg, Reclaimed(), 0) && !Exclusive(cfg, Reclaimed())
            && ClaimsOf(cfg, Reclaimed(), 0) == 2 > Cap(cfg) && Run(cfg, Reclaimed()).records[0].status == Processing
  {
    var cfg := ShortLeases(1);
    ReclaimedRun(cfg);
    AttemptsCountClaims(cfg, Reclaimed(), 0);
    ReclaimedIsNotExclusive(cfg);
    var enqueue := Enqueue(5, "t", "d", true, 0);
    assert [] + [enqueue] == [enqueue];
    DroppedAppend(cfg, [], enqueue, 0);
    DroppedAppend(cfg, [enqueue], Claim("a", 0, {}, 1), 0);
    DroppedAppend(cfg, [enqueue] + [Claim("a", 0, {}, 1)], Claim("b", 20, {}, 1), 0);
  }

  /** One claim whose consumer cannot be started and whose last update is then lost, as when its batch is cancelled. */
  function Dropped(): seq<Step> {
    [Enqueue(5, "t", "d", true, 0)] + [Claim("a", 0, {}, 1)] + [StartConsumer((0, 1), NotCommitted)] + [RetryOrFail((0, 1), 1, false)]
  }

  lemma StartingRun(cfg: Config)
    requires cfg.consumers == map["d" := ["c"]] && cfg.claimTimeout == 10_000_000
    ensures Run(cfg, [Enqueue(5, "t", "d", true, 0)] + [Claim("a", 0, {}, 1)] + [StartConsumer((0, 1), NotCommitted)])
         == State([Row(1, Processing, 0, Some((0, "a")))], map[], map[(0, 1) := Retrying], map[], map[])
  {
    var claimed := [Enqueue(5, "t", "d", true, 0)] + [Claim("a", 0, {}, 1)];
    ReclaimedRun(cfg);
    RunAppend(cfg, claimed, StartConsumer((0, 1), NotCommitted));
    NotStarted(cfg, Run(cfg, claimed), (0, 1));
    assert map[(0, 1) := AtConsumer(0)][(0, 1) := Retrying] == map[(0, 1) := Retrying];
  }

  lemma NotStarted(cfg: Config, s: State, job: JobId)
    requires Live(s, job) && s.jobs[job] == AtConsumer(0) && ConsumersOf(cfg, s.records[job.0]) != []
    ensures Apply(cfg, s, StartConsumer(job, NotCommitted)) == s.(jobs := s.jobs[job := Retrying])
  {
  }

  lemma DroppedRun(cfg: Config)
    requires cfg.consumers == map["d" := ["c"]] && cfg.claimTimeout == 10_000_000
    ensures Run(cfg, Dropped()) == State([Row(1, Processing, 0, Some((0, "a")))], map[], map[], map[], map[])
    ensures Cap(cfg) == 1 ==> LastPassDropped(cfg, Dropped(), 0)
  {
    var starting := [Enqueue(5, "t", "d", true, 0)] + [Claim("a", 0, {}, 1)] + [StartConsumer((0, 1), NotCommitted)];
    StartingRun(cfg);
    RunAppend(cfg, starting, RetryOrFail((0, 1), 1, false));
    DroppedAppend(cfg, starting, RetryOrFail((0, 1), 1, false), 0);
  }

  lemma ExclusiveAppend(cfg: Config, steps: seq<Step>, step: Step)
    requires Exclusive(cfg, steps) && ExclusiveStep(cfg, Run(cfg, steps), step)
    ensures Exclusive(cfg, steps + [step])
  {
    assert (steps + [step])[..|steps|] == steps;
  }

  lemma DroppedIsExclusive(cfg: Config)
    requires cfg.consumers == map["d" := ["c"]] && cfg.claimTimeout == 10_000_000
    ensures Exclusive(cfg, Dropped() + [Claim("b", 20, {}, 1)])
  {
    var enqueue, claimed := Enqueue(5, "t", "d", true, 0), [Enqueue(5, "t", "d", true, 0)] + [Claim("a", 0, {}, 1)];
    assert [] + [enqueue] == [enqueue];
    RunAppend(cfg, [], enqueue);
    ExclusiveAppend(cfg, [], enqueue);
    ExclusiveAppend(cfg, [enqueue], Claim("a", 0, {}, 1));
    ExclusiveAppend(cfg, claimed, StartConsumer((0, 1), NotCommitted));
    ExclusiveAppend(cfg, claimed + [StartConsumer((0, 1), NotCommitted)], RetryOrFail((0, 1), 1, false));
    DroppedRun(cfg);
    ExclusiveAppend(cfg, Dropped(), Claim("b", 20, {}, 1));
  }

  /** So can it when leases outlast passes and nobody crashes, once the last update of one pass is lost. */
  lemma LostUpdateBreaksTheBound()
    ensures var cfg := ShortLeases(1); var steps := Dropped() + [Claim("b", 20, {}, 1)];
            && Exclusive(cfg, steps) && (forall m :: 0 <= m < |steps| ==> !steps[m].Crash?)
            && LastPassDropped(cfg, Dropped(), 0) && ClaimsOf(cfg, steps, 0) == 2 > Cap(cfg)
  {
    var cfg := ShortLeases(1);
    DroppedIsExclusive(cfg);
    DroppedRun(cfg);
    OneRowClaimed(cfg, Run(cfg, Dropped()), "b", 20);
    AttemptsCountClaims(cfg, Dropped(), 0);
    ExceedsWhenClaimed(cfg, Dropped(), Claim("b", 20, {}, 1), 0);
    ClaimsAppend(cfg, Dropped(), Claim("b", 20, {}, 1), 0);
  }

  lemma ClaimsAppend(cfg: Config, steps: seq<Step>, step: Step, i: nat)
    ensures ClaimsOf(cfg, steps + [step], i) <= ClaimsOf(cfg, steps, i) + 1
  {
    assert (steps + [step])[..|steps|] == steps;
  }

  /** The first worker fails to start its consumer, the second one processes the row. */
  function Overtaken(): seq<Step> {
    Reclaimed() + [StartConsumer((0, 1), NotCommitted)] + [StartConsumer((0, 2), Committed)] + [Handle((0, 2), true)]
    + [MarkDone((0, 2), Committed)] + [Finish((0, 2), true)]
  }

  const READY := Row(2, Processing, 0, Some((20, "b")))

  lemma OvertakenStarts(cfg: Config)
    requires cfg.consumers == map["d" := ["c"]] && cfg.claimTimeout == 10_000_000
    ensures Run(cfg, Reclaimed() + [StartConsumer((0, 1), NotCommitted)] + [StartConsumer((0, 2), Committed)])
         == State([READY], map[("c", 5) := Started], map[(0, 1) := Retrying, (0, 2) := Handling(0)], map[], map[])
  {
    ReclaimedRun(cfg);
    assert ConsumersOf(cfg, READY) == ["c"];
    var t1 := Reclaimed() + [StartConsumer((0, 1), NotCommitted)];
    RunAppend(cfg, Reclaimed(), StartConsumer((0, 1), NotCommitted));
    assert Run(cfg, t1) == State([READY], map[], map[(0, 1) := Retrying, (0, 2) := AtConsumer(0)], map[], map[]);
    RunAppend(cfg, t1, StartConsumer((0, 2), Committed));
  }

  lemma OvertakenHandles(cfg: Config, before: seq<Step>)
    requires cfg.consumers == map["d" := ["c"]]
    requires Run(cfg, before) == State([READY], map[("c", 5) := Started], map[(0, 1) := Retrying, (0, 2) := Handling(0)], map[], map[])
    ensures Run(cfg, before + [Handle((0, 2), true)] + [MarkDone((0, 2), Committed)])
         == State([READY], map[("c", 5) := Done], map[(0, 1) := Retrying, (0, 2) := Finishing], map[("c", 5) := 1], map[])
  {
    assert ConsumersOf(cfg, READY) == ["c"];
    RunAppend(cfg, before, Handle((0, 2), true));
    assert Run(cfg, before + [Handle((0, 2), true)])
        == State([READY], map[("c", 5) := Started], map[(0, 1) := Retrying, (0, 2) := Marking(0)], map[("c", 5) := 1], map[]);
    RunAppend(cfg, before + [Handle((0, 2), true)], MarkDone((0, 2), Committed));
  }

  lemma OvertakenRun(cfg: Config)
    requires cfg.consumers == map["d" := ["c"]] && cfg.claimTimeout == 10_000_000
    ensures Run(cfg, Overtaken())
         == State([Row(2, Processed, 0, None)], map[("c", 5) := Done], map[(0, 1) := Retrying], map[("c", 5) := 1], map[])
  {
    var started := Reclaimed() + [StartConsumer((0, 1), NotCommitted)] + [StartConsumer((0, 2), Committed)];
    OvertakenStarts(cfg);
    OvertakenHandles(cfg, started);
    RunAppend(cfg, started + [Handle((0, 2), true)] + [MarkDone((0, 2), Committed)], Finish((0, 2), true));
  }

  /** The overtaken worker's late retry makes the processed row pending again. */
  lemma LateWriteTakesProcessedBack()
    ensures var cfg := ShortLeases(5); var steps := Overtaken() + [RetryOrFail((0, 1), 30, true)]; var n := |Overtaken()|;
            ProcessedAt(cfg, steps, n, 0) && StaleWriteAt(cfg, steps, n, 0) && Run(cfg, steps).records == [Row(2, Pending, 1030, None)]
  {
    var cfg := ShortLeases(5);
    var steps := Overtaken() + [RetryOrFail((0, 1), 30, true)];
    OvertakenRun(cfg);
    RunAppend(cfg, Overtaken(), RetryOrFail((0, 1), 30, true));
    assert steps[..|Overtaken()|] == Overtaken();
    assert Doubling(cfg, 1) == 1_000_000_000 * Pow2(0);
  }
}
