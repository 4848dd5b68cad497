/** Leases, attempt counts, settling and backoff of outbox rows. */
module OutboxRetry {
  import opened Common
  import opened Outbox
  import opened OutboxProtocol

  // ---------------------------------------------------------------- locks and leases

  /** A row is processing exactly when it is locked, by time and by worker. */
  ghost predicate LocksAgree(s: State) {
    forall i :: 0 <= i < |s.records| ==>
      var r := s.records[i];
      (r.status == Processing <==> r.lockedAt.Some?) && (r.lockedAt.Some? <==> r.lockedBy.Some?)
  }

  lemma StepLocks(cfg: Config, s: State, step: Step)
    requires LocksAgree(s)
    ensures LocksAgree(Apply(cfg, s, step))
  {
  }

  lemma {:induction false} EveryRunLocks(cfg: Config, steps: seq<Step>)
    ensures LocksAgree(Run(cfg, steps))
  {
    if steps != [] {
      EveryRunLocks(cfg, steps[..|steps| - 1]);
      StepLocks(cfg, Run(cfg, steps[..|steps| - 1]), steps[|steps| - 1]);
    }
  }

  predicate Settled(r: Record) {
    r.status == Processed || r.status == Failed
  }

  /** When an unsettled row comes up for claiming: its retry time, or the end of its lease. */
  function ClaimableFrom(cfg: Config, r: Record): Time {
    if r.status == Processing && r.lockedAt.Some? then r.lockedAt.value + Milliseconds(cfg.claimTimeout) + 1 else r.availableAt
  }

  /** No unsettled row is ever stranded: from a known time on it is claimable, and settled rows never are. */
  lemma UnsettledStaysClaimable(cfg: Config, steps: seq<Step>, i: nat, now: Time)
    requires i < |Run(cfg, steps).records|
    ensures var r := Run(cfg, steps).records[i];
            Claimable(cfg, r, now) <==> !Settled(r) && Routed(cfg, r) && now >= ClaimableFrom(cfg, r)
  {
    EveryRunLocks(cfg, steps);
  }

  // ---------------------------------------------------------------- routing

  /** A consumer is walked for a record if and only if it is listed for the destination or, when none is, for the topic. */
  lemma WalkedIff(cfg: Config, r: Record, c: string)
    ensures c in ConsumersOf(cfg, r) <==>
            || (r.destination in cfg.consumers && c in cfg.consumers[r.destination])
            || ((r.destination in cfg.consumers ==> cfg.consumers[r.destination] == []) && r.topic in cfg.consumers && c in cfg.consumers[r.topic])
  {
  }

  /** A worker takes only records for which it lists the destination or the topic, unless it lists nothing; so those it has consumers for. */
  lemma OwnRecordsAreClaimed(cfg: Config, s: State, step: Step, i: nat)
    requires step.Claim? && i < |s.records|
    ensures var r := s.records[i]; var listed := r.destination in cfg.consumers || r.topic in cfg.consumers;
            && (i in Chosen(cfg, s.records, step.skip, step.limit, step.now, |s.records|) ==> listed || cfg.consumers == map[])
            && (ConsumersOf(cfg, r) != [] ==> listed)
            && (r.status == Pending && r.availableAt <= step.now && (listed || cfg.consumers == map[]) && i !in step.skip && |s.records| <= step.limit ==>
                  i in Chosen(cfg, s.records, step.skip, step.limit, step.now, |s.records|))
  {
    ChosenIsOldestFirst(cfg, s.records, step.skip, step.limit, step.now, |s.records|);
    ChosenAreFewer(cfg, s.records, step.skip, step.limit, step.now, i);
  }

  /** A row that could be taken and is not leaves the batch less than all the rows. */
  lemma ChosenAreFewer(cfg: Config, records: seq<Record>, skip: set<nat>, limit: nat, now: Time, i: nat)
    requires i < |records|
    ensures i !in Chosen(cfg, records, skip, limit, now, |records|) ==> |Chosen(cfg, records, skip, limit, now, |records|)| < |records|
  {
    ChosenUpTo(cfg, records, skip, limit, now, |records|, i);
  }

  lemma {:induction false} ChosenUpTo(cfg: Config, records: seq<Record>, skip: set<nat>, limit: nat, now: Time, n: nat, i: nat)
    requires n <= |records|
    ensures |Chosen(cfg, records, skip, limit, now, n)| <= n
    ensures i < n && i !in Chosen(cfg, records, skip, limit, now, n) ==> |Chosen(cfg, records, skip, limit, now, n)| < n
  {
    if n > 0 { ChosenUpTo(cfg, records, skip, limit, now, n - 1, i); }
  }

  /** A new row is due at once, and not before. */
  lemma NewRowIsDue(cfg: Config, s: State, step: Step, t: Time)
    requires step.Enqueue?
    ensures var after := Apply(cfg, s, step); var r := after.records[|s.records|];
            && |after.records| == |s.records| + 1 && after.records[..|s.records|] == s.records
            && (r.event, r.topic, r.destination, r.attempts, r.lockedBy) == (step.event, step.topic, step.destination, 0, None)
            && (Claimable(cfg, r, t) <==> Routed(cfg, r) && t >= step.now)
  {
  }

  /** A claimed row is this worker's, and nobody else's until its lease has run out. */
  lemma ClaimedRowIsLeased(cfg: Config, s: State, step: Step, i: nat, t: Time)
    requires step.Claim? && i in Chosen(cfg, s.records, step.skip, step.limit, step.now, |s.records|)
    ensures i < |s.records| == |Apply(cfg, s, step).records|
    ensures var r := Apply(cfg, s, step).records[i];
            r.lockedBy == Some(step.worker) && (Claimable(cfg, r, t) <==> t > step.now + Milliseconds(cfg.claimTimeout))
  {
    ChosenIsOldestFirst(cfg, s.records, step.skip, step.limit, step.now, |s.records|);
  }

  // ---------------------------------------------------------------- attempts count claims

  /** How many claims of a run took row `i`. */
  function ClaimsOf(cfg: Config, steps: seq<Step>, i: nat): nat {
    if steps == [] then 0
    else
      var s, last := Run(cfg, steps[..|steps| - 1]), steps[|steps| - 1];
      ClaimsOf(cfg, steps[..|steps| - 1], i)
      + if last.Claim? && i in Chosen(cfg, s.records, last.skip, last.limit, last.now, |s.records|) then 1 else 0
  }

  lemma StepAttempts(cfg: Config, s: State, step: Step, i: nat)
    requires i < |s.records|
    ensures i < |Apply(cfg, s, step).records|
    ensures Apply(cfg, s, step).records[i].attempts == s.records[i].attempts
            + if step.Claim? && i in Chosen(cfg, s.records, step.skip, step.limit, step.now, |s.records|) then 1 else 0
  {
  }

  lemma StepNewRow(cfg: Config, s: State, step: Step, i: nat)
    requires |s.records| <= i < |Apply(cfg, s, step).records|
    ensures step.Enqueue? && Apply(cfg, s, step).records[i].attempts == 0
  {
  }

  /** The attempt count is the number of claims so far: one more per claim, never reset. */
  lemma {:induction false} AttemptsCountClaims(cfg: Config, steps: seq<Step>, i: nat)
    ensures ClaimsOf(cfg, steps, i) == if i < |Run(cfg, steps).records| then Run(cfg, steps).records[i].attempts else 0
  {
    if steps != [] {
      var s, last := Run(cfg, steps[..|steps| - 1]), steps[|steps| - 1];
      AttemptsCountClaims(cfg, steps[..|steps| - 1], i);
      if i < |s.records| {
        StepAttempts(cfg, s, last, i);
      } else {
        if i < |Apply(cfg, s, last).records| { StepNewRow(cfg, s, last, i); }
        if last.Claim? { ChosenIsOldestFirst(cfg, s.records, last.skip, last.limit, last.now, |s.records|); }
      }
    }
  }

  // ---------------------------------------------------------------- processed rows

  /** A late write by a worker that still holds a job on the row: a retry, or a failure. */
  predicate IsStaleWrite(cfg: Config, s: State, step: Step, i: nat) {
    || (step.RetryOrFail? && step.committed && Live(s, step.job) && step.job.0 == i && s.jobs[step.job].Retrying?)
    || (step.FailUndecodable? && step.committed && Live(s, step.job) && step.job.0 == i && s.jobs[step.job].Undecodable?)
  }

  /** A processed row leaves that status exactly by such a late write. */
  lemma ProcessedLeftOnlyByStaleWrite(cfg: Config, s: State, step: Step, i: nat)
    requires i < |s.records| && s.records[i].status == Processed
    ensures Apply(cfg, s, step).records[i].status != Processed <==> IsStaleWrite(cfg, s, step, i)
  {
    if step.Claim? { ChosenIsOldestFirst(cfg, s.records, step.skip, step.limit, step.now, |s.records|); }
  }

  /** Row `i` is `r`, settled, and no worker holds a job on it. */
  ghost predicate AtRest(s: State, i: nat, r: Record) {
    i < |s.records| && s.records[i] == r && Settled(r) && forall j :: j in s.jobs ==> j.0 != i
  }

  lemma ClaimKeepsRest(cfg: Config, s: State, worker: string, now: Time, skip: set<nat>, limit: nat, i: nat, r: Record)
    requires AtRest(s, i, r)
    ensures AtRest(ClaimStep(cfg, s, worker, now, skip, limit), i, r)
  {
    var chosen := Chosen(cfg, s.records, skip, limit, now, |s.records|);
    ChosenIsOldestFirst(cfg, s.records, skip, limit, now, |s.records|);
    var started := FreshJobs(cfg, s, chosen);
    forall j | j in started ensures j.0 != i {
      FreshJobsAre(cfg, s, chosen, j);
    }
  }

  lemma StepKeepsRest(cfg: Config, s: State, step: Step, i: nat, r: Record)
    requires AtRest(s, i, r)
    ensures AtRest(Apply(cfg, s, step), i, r)
  {
    if step.Claim? { ClaimKeepsRest(cfg, s, step.worker, step.now, step.skip, step.limit, i, r); }
  }

  /** A row that is settled when no worker holds it stays as it is for good. */
  lemma {:induction false} SettledAtRestIsFinal(cfg: Config, steps: seq<Step>, n: nat, i: nat, r: Record)
    requires n <= |steps| && AtRest(Run(cfg, steps[..n]), i, r)
    ensures AtRest(Run(cfg, steps), i, r)
  {
    if n == |steps| {
      assert steps[..n] == steps;
    } else {
      var before := steps[..|steps| - 1];
      assert before[..n] == steps[..n];
      SettledAtRestIsFinal(cfg, before, n, i, r);
      StepKeepsRest(cfg, Run(cfg, before), steps[|steps| - 1], i, r);
    }
  }

  // ---------------------------------------------------------------- backoff

  lemma {:induction false} Pow2Grows(m: nat, n: nat)
    requires m <= n
    ensures 1 <= Pow2(m) <= Pow2(n)
    decreases n
  {
    if n > 0 {
      Pow2Grows(if m == n then m - 1 else m, n - 1);
    }
  }

  lemma DoublingGrows(cfg: Config, m: nat, n: nat)
    requires m <= n && cfg.backoffBase > 0
    ensures 0 < Doubling(cfg, m) <= Doubling(cfg, n)
  {
    var a, b := if m == 0 then 0 else m - 1, if n == 0 then 0 else n - 1;
    Pow2Grows(a, b);
    assert cfg.backoffBase * Pow2(a) <= cfg.backoffBase * Pow2(b);
    assert cfg.backoffBase * Pow2(a) >= cfg.backoffBase * 1;
  }

  /** Delays double up to the cap exactly as long as the doubling fits an int64; past it they turn negative. */
  lemma BackoffIsCappedDoubling(cfg: Config, n: nat)
    requires cfg.backoffBase > 0 && 0 < cfg.backoffMax < INT64_LIMIT
    ensures Backoff(cfg, n) == Min(Doubling(cfg, n), cfg.backoffMax) <==> Doubling(cfg, n) < INT64_LIMIT
    ensures Doubling(cfg, n) >= INT64_LIMIT ==> Backoff(cfg, n) < 0
  {
    DoublingGrows(cfg, n, n);
  }

  /** Up to that point later attempts never wait less. */
  lemma BackoffGrows(cfg: Config, m: nat, n: nat)
    requires cfg.backoffBase > 0 && 0 < cfg.backoffMax < INT64_LIMIT && m <= n && Doubling(cfg, n) < INT64_LIMIT
    ensures 0 < Backoff(cfg, m) <= Backoff(cfg, n) <= cfg.backoffMax
  {
    DoublingGrows(cfg, m, n);
  }

  // ---------------------------------------------------------------- the stored retry time

  /** The wait after attempt `n`, in milliseconds: base, twice base, four times base and so on, up to the cap. */
  function RetryWait(cfg: Config, n: nat): int
    requires n >= 1
  {
    Min(cfg.backoffBase * Pow2(n - 1), cfg.backoffMax) / 1_000_000
  }

  /** A worker is about to schedule the retry of attempt `job.1`, which is not the last. */
  predicate Retries(cfg: Config, s: State, job: JobId) {
    && Live(s, job) && s.jobs[job].Retrying? && 1 <= job.1 < cfg.maxAttempts
    && cfg.backoffBase > 0 && 0 < cfg.backoffMax < INT64_LIMIT && cfg.backoffBase * Pow2(job.1 - 1) < INT64_LIMIT
  }

  /** Once that update has committed, the row can be claimed exactly from the end of the wait on. */
  lemma RetriedRowIsDueAfterItsWait(cfg: Config, s: State, job: JobId, now: Time, t: Time)
    requires Retries(cfg, s, job) && Routed(cfg, s.records[job.0])
    ensures var after := Apply(cfg, s, RetryOrFail(job, now, true));
            Claimable(cfg, after.records[job.0], t) <==> t >= now + RetryWait(cfg, job.1)
  {
    BackoffIsCappedDoubling(cfg, job.1);
    DoublingGrows(cfg, job.1, job.1);
  }

  /** At the last attempt it can never be claimed again: the row is failed. */
  lemma LastAttemptFails(cfg: Config, s: State, job: JobId, now: Time, t: Time)
    requires Live(s, job) && s.jobs[job].Retrying? && job.1 >= cfg.maxAttempts
    ensures var after := Apply(cfg, s, RetryOrFail(job, now, true));
            after.records[job.0].status == Failed && !Claimable(cfg, after.records[job.0], t)
  {
  }

  lemma WaitGrows(cfg: Config, m: nat, n: nat)
    requires 1 <= m <= n && cfg.backoffBase > 0
    ensures RetryWait(cfg, m) <= RetryWait(cfg, n)
  {
    DoublingGrows(cfg, m, n);
  }

  /** A row retried after a later attempt is never due sooner than one retried at the same time after an earlier attempt. */
  lemma LaterRetriesWaitNoLess(cfg: Config, s: State, job: JobId, s': State, job': JobId, now: Time, t: Time)
    requires Retries(cfg, s, job) && Retries(cfg, s', job') && job.1 <= job'.1
    requires Routed(cfg, s.records[job.0]) && Routed(cfg, s'.records[job'.0])
    requires Claimable(cfg, Apply(cfg, s', RetryOrFail(job', now, true)).records[job'.0], t)
    ensures Claimable(cfg, Apply(cfg, s, RetryOrFail(job, now, true)).records[job.0], t)
  {
    RetriedRowIsDueAfterItsWait(cfg, s, job, now, t);
    RetriedRowIsDueAfterItsWait(cfg, s', job', now, t);
    WaitGrows(cfg, job.1, job'.1);
  }

  /** Below the cap the next attempt waits twice as long, for a base of whole milliseconds; at the cap it waits the cap. */
  lemma WaitDoubles(cfg: Config, n: nat)
    requires n >= 1 && cfg.backoffBase > 0 && cfg.backoffBase % 1_000_000 == 0
    ensures cfg.backoffBase * Pow2(n) <= cfg.backoffMax ==> RetryWait(cfg, n + 1) == 2 * RetryWait(cfg, n)
    ensures cfg.backoffBase * Pow2(n - 1) >= cfg.backoffMax ==> RetryWait(cfg, n) == cfg.backoffMax / 1_000_000
    ensures cfg.backoffBase <= cfg.backoffMax ==> RetryWait(cfg, 1) == cfg.backoffBase / 1_000_000
  {
    var a, p := cfg.backoffBase / 1_000_000, Pow2(n - 1);
    assert Pow2(n) == 2 * p && Pow2(0) == 1;
    Pow2Grows(0, n - 1);
    Scaled(a, p);
    Scaled(a, 2 * p);
  }

  lemma Scaled(a: int, p: nat)
    requires a >= 0
    ensures a * 1_000_000 * p / 1_000_000 == a * p
  {
    assert a * 1_000_000 * p == a * p * 1_000_000;
  }

  /** One second doubled thirty-four times no longer fits, so attempt 35 is retried at once. */
  lemma BackoffOverflows(cfg: Config)
    requires cfg.backoffBase == 1_000_000_000 && cfg.backoffMax == 60_000_000_000
    ensures Backoff(cfg, 35) < 0 && Backoff(cfg, 34) == cfg.backoffMax
  {
    assert Pow2(8) == 256;
    Pow2Sum(8, 8);
    Pow2Sum(16, 16);
    Pow2Sum(32, 1);
    Pow2Sum(33, 1);
  }

  lemma {:induction false} Pow2Sum(m: nat, n: nat)
    ensures Pow2(m + n) == Pow2(m) * Pow2(n)
  {
    if m > 0 {
      Pow2Sum(m - 1, n);
    }
  }
}
