/**
 Workers sharing the outbox, as interleaved transactions. A job is one claim of one row, named by the
 row and the attempt count it drew. Every statement may commit and be reported, commit but be
 reported as failed, or not commit; a worker may stop anywhere; leases run out while their
 holders are still at work.
 */
module OutboxProtocol {
  import opened Common
  import opened Outbox

  type JobId = (nat, nat)

  /** Where a worker stands in `processRecord`; `k` indexes the consumer list. */
  datatype Pc = AtConsumer(k: nat) | Handling(k: nat) | Marking(k: nat) | MarkingErrored(k: nat) | Retrying | Finishing | Undecodable

  datatype Outcome = Committed | CommittedUnreported | NotCommitted

  /** `successes` counts Handle calls that returned nil, `lost` those whose done-mark never committed. */
  datatype State = State(records: seq<Record>, rows: map<ConsumerKey, ConsumerStatus>, jobs: map<JobId, Pc>,
                         successes: map<ConsumerKey, nat>, lost: map<ConsumerKey, nat>)

  const INITIAL := State([], map[], map[], map[], map[])

  datatype Step =
    | Enqueue(event: Id, topic: string, destination: string, decodes: bool, now: Time)
    | Claim(worker: string, now: Time, skip: set<nat>, limit: nat)
    | StartConsumer(job: JobId, outcome: Outcome)
    | Handle(job: JobId, ok: bool)
    | MarkDone(job: JobId, outcome: Outcome)
    | MarkErrored(job: JobId, committed: bool)
    | RetryOrFail(job: JobId, now: Time, committed: bool)
    | Finish(job: JobId, committed: bool)
    | FailUndecodable(job: JobId, committed: bool)
    | Crash(job: JobId)

  function Count(m: map<ConsumerKey, nat>, key: ConsumerKey): nat {
    if key in m then m[key] else 0
  }

  function Bump(m: map<ConsumerKey, nat>, key: ConsumerKey): map<ConsumerKey, nat> {
    m[key := Count(m, key) + 1]
  }

  function PcFor(cfg: Config, r: Record, k: nat): Pc {
    if k < |ConsumersOf(cfg, r)| then AtConsumer(k) else Finishing
  }

  function FirstPc(cfg: Config, r: Record): Pc {
    if !r.decodes then Undecodable else PcFor(cfg, r, 0)
  }

  predicate Live(s: State, job: JobId) {
    job in s.jobs && job.0 < |s.records|
  }

  /** The consumer a job is concerned with while it stands at a `k`. */
  predicate HasKey(cfg: Config, s: State, job: JobId) {
    && Live(s, job)
    && var pc := s.jobs[job];
    && (pc.AtConsumer? || pc.Handling? || pc.Marking? || pc.MarkingErrored?)
    && pc.k < |ConsumersOf(cfg, s.records[job.0])|
  }

  function KeyOf(cfg: Config, s: State, job: JobId): ConsumerKey
    requires HasKey(cfg, s, job)
  {
    (ConsumersOf(cfg, s.records[job.0])[s.jobs[job].k], s.records[job.0].event)
  }

  function NameOf(s: State, i: nat): JobId
    requires i < |s.records|
  {
    (i, s.records[i].attempts + 1)
  }

  function FreshJobs(cfg: Config, s: State, chosen: seq<nat>): map<JobId, Pc> {
    map i | i in chosen && i < |s.records| :: NameOf(s, i) := FirstPc(cfg, s.records[i])
  }

  function ClaimStep(cfg: Config, s: State, worker: string, now: Time, skip: set<nat>, limit: nat): State {
    var chosen := Chosen(cfg, s.records, skip, limit, now, |s.records|);
    s.(records := ClaimedRows(s.records, chosen, now, worker), jobs := s.jobs + FreshJobs(cfg, s, chosen))
  }

  /** The move of one job after the idempotency transaction. */
  function StartStep(cfg: Config, s: State, job: JobId, outcome: Outcome): State
    requires HasKey(cfg, s, job)
  {
    var key, k := KeyOf(cfg, s, job), s.jobs[job].k;
    var rows := if outcome.NotCommitted? then s.rows else StartedRows(s.rows, key);
    var pc := if !outcome.Committed? then Retrying
              else if rows[key] == Done then PcFor(cfg, s.records[job.0], k + 1) else Handling(k);
    s.(rows := rows, jobs := s.jobs[job := pc])
  }

  function HandleStep(cfg: Config, s: State, job: JobId, ok: bool): State
    requires HasKey(cfg, s, job)
  {
    var k := s.jobs[job].k;
    if ok then s.(successes := Bump(s.successes, KeyOf(cfg, s, job)), jobs := s.jobs[job := Marking(k)])
    else s.(jobs := s.jobs[job := MarkingErrored(k)])
  }

  function MarkDoneStep(cfg: Config, s: State, job: JobId, outcome: Outcome): State
    requires HasKey(cfg, s, job)
  {
    var key, k := KeyOf(cfg, s, job), s.jobs[job].k;
    match outcome
    case Committed => s.(rows := MarkedRows(s.rows, key, Done), jobs := s.jobs[job := PcFor(cfg, s.records[job.0], k + 1)])
    case CommittedUnreported => s.(rows := MarkedRows(s.rows, key, Done), jobs := s.jobs[job := Retrying])
    case NotCommitted => s.(lost := Bump(s.lost, key), jobs := s.jobs[job := Retrying])
  }

  function MarkErroredStep(cfg: Config, s: State, job: JobId, committed: bool): State
    requires HasKey(cfg, s, job)
  {
    s.(rows := if committed then MarkedRows(s.rows, KeyOf(cfg, s, job), Errored) else s.rows, jobs := s.jobs[job := Retrying])
  }

  /** The job ends; `r` is written when the final update commits. */
  function Ended(s: State, job: JobId, committed: bool, r: Record): State
    requires job.0 < |s.records|
  {
    s.(records := if committed then s.records[job.0 := r] else s.records, jobs := s.jobs - {job})
  }

  /** A step whose job is not at the matching place changes nothing. */
  function Apply(cfg: Config, s: State, step: Step): State {
    match step
    case Enqueue(e, topic, destination, decodes, now) => s.(records := s.records + [NewRecord(e, topic, destination, decodes, now)])
    case Claim(worker, now, skip, limit) => ClaimStep(cfg, s, worker, now, skip, limit)
    case StartConsumer(j, outcome) => if HasKey(cfg, s, j) && s.jobs[j].AtConsumer? then StartStep(cfg, s, j, outcome) else s
    case Handle(j, ok) => if HasKey(cfg, s, j) && s.jobs[j].Handling? then HandleStep(cfg, s, j, ok) else s
    case MarkDone(j, outcome) => if HasKey(cfg, s, j) && s.jobs[j].Marking? then MarkDoneStep(cfg, s, j, outcome) else s
    case MarkErrored(j, committed) => if HasKey(cfg, s, j) && s.jobs[j].MarkingErrored? then MarkErroredStep(cfg, s, j, committed) else s
    case RetryOrFail(j, now, committed) =>
      if Live(s, j) && s.jobs[j].Retrying? then Ended(s, j, committed, RetriedRow(cfg, s.records[j.0], j.1, now)) else s
    case Finish(j, committed) =>
      if Live(s, j) && s.jobs[j].Finishing? then Ended(s, j, committed, ProcessedRow(s.records[j.0])) else s
    case FailUndecodable(j, committed) =>
      if Live(s, j) && s.jobs[j].Undecodable? then Ended(s, j, committed, FailedRow(s.records[j.0])) else s
    case Crash(j) =>
      if !Live(s, j) then s
      else
        var lost := if HasKey(cfg, s, j) && s.jobs[j].Marking? then Bump(s.lost, KeyOf(cfg, s, j)) else s.lost;
        s.(jobs := s.jobs - {j}, lost := lost)
  }

  function Run(cfg: Config, steps: seq<Step>): State {
    if steps == [] then INITIAL else Apply(cfg, Run(cfg, steps[..|steps| - 1]), steps[|steps| - 1])
  }

  // ---------------------------------------------------------------- what every step keeps

  /** Rows are only ever added, and their routing never changes. */
  ghost predicate Extends(after: State, before: State) {
    && |before.records| <= |after.records|
    && (forall i :: 0 <= i < |before.records| ==>
          var r, r' := before.records[i], after.records[i];
          r'.event == r.event && r'.topic == r.topic && r'.destination == r.destination && r'.decodes == r.decodes && r.attempts <= r'.attempts)
  }

  lemma ApplyExtends(cfg: Config, s: State, step: Step)
    ensures Extends(Apply(cfg, s, step), s)
  {
  }

  ghost predicate Handled(s: State, key: ConsumerKey) {
    Count(s.successes, key) > 0
  }

  /** The first `n` consumers of a row have all handled its event. */
  ghost predicate HandledUpTo(cfg: Config, s: State, r: Record, n: nat) {
    n <= |ConsumersOf(cfg, r)| && forall i :: 0 <= i < n ==> Handled(s, (ConsumersOf(cfg, r)[i], r.event))
  }

  /** How far a job has come, and that this many consumers have handled the event. */
  ghost predicate JobSound(cfg: Config, s: State, r: Record, pc: Pc) {
    match pc
    case AtConsumer(k) => k < |ConsumersOf(cfg, r)| && HandledUpTo(cfg, s, r, k)
    case Handling(k) => k < |ConsumersOf(cfg, r)| && HandledUpTo(cfg, s, r, k)
    case Marking(k) => k < |ConsumersOf(cfg, r)| && HandledUpTo(cfg, s, r, k + 1)
    case MarkingErrored(k) => k < |ConsumersOf(cfg, r)| && HandledUpTo(cfg, s, r, k)
    case Finishing => HandledUpTo(cfg, s, r, |ConsumersOf(cfg, r)|)
    case Retrying | Undecodable => true
  }

  ghost predicate Safe(cfg: Config, s: State) {
    && (forall key :: key in s.rows && s.rows[key] == Done ==> Handled(s, key))
    && (forall j :: j in s.jobs ==> j.0 < |s.records| && j.1 <= s.records[j.0].attempts && JobSound(cfg, s, s.records[j.0], s.jobs[j]))
    && (forall i :: 0 <= i < |s.records| && s.records[i].status == Processed ==>
          HandledUpTo(cfg, s, s.records[i], |ConsumersOf(cfg, s.records[i])|))
  }

  lemma HandledStays(cfg: Config, s: State, after: State, r: Record, r': Record, n: nat)
    requires HandledUpTo(cfg, s, r, n)
    requires r'.event == r.event && r'.topic == r.topic && r'.destination == r.destination
    requires forall key :: Handled(s, key) ==> Handled(after, key)
    ensures HandledUpTo(cfg, after, r', n)
  {
    assert ConsumersOf(cfg, r') == ConsumersOf(cfg, r);
  }

  lemma JobStaysSound(cfg: Config, s: State, after: State, r: Record, r': Record, pc: Pc)
    requires JobSound(cfg, s, r, pc)
    requires r'.event == r.event && r'.topic == r.topic && r'.destination == r.destination
    requires forall key :: Handled(s, key) ==> Handled(after, key)
    ensures JobSound(cfg, after, r', pc)
  {
    assert ConsumersOf(cfg, r') == ConsumersOf(cfg, r);
    match pc
    case AtConsumer(k) => HandledStays(cfg, s, after, r, r', k);
    case Handling(k) => HandledStays(cfg, s, after, r, r', k);
    case Marking(k) => HandledStays(cfg, s, after, r, r', k + 1);
    case MarkingErrored(k) => HandledStays(cfg, s, after, r, r', k);
    case Finishing => HandledStays(cfg, s, after, r, r', |ConsumersOf(cfg, r)|);
    case _ =>
  }

  lemma HandledOnlyGrows(cfg: Config, s: State, step: Step)
    ensures forall key :: Handled(s, key) ==> Handled(Apply(cfg, s, step), key)
  {
  }

  /** Jobs other than the one that moved, and processed rows other than the one just written, carry over. */
  lemma CarriesOver(cfg: Config, s: State, step: Step)
    requires Safe(cfg, s)
    ensures var after := Apply(cfg, s, step);
            && (forall j :: j in s.jobs ==> j.0 < |after.records| && j.1 <= after.records[j.0].attempts
                                            && JobSound(cfg, after, after.records[j.0], s.jobs[j]))
            && (forall i :: 0 <= i < |s.records| && s.records[i].status == Processed ==>
                  HandledUpTo(cfg, after, after.records[i], |ConsumersOf(cfg, after.records[i])|))
  {
    var after := Apply(cfg, s, step);
    ApplyExtends(cfg, s, step);
    HandledOnlyGrows(cfg, s, step);
    forall j | j in s.jobs ensures j.0 < |after.records| && j.1 <= after.records[j.0].attempts && JobSound(cfg, after, after.records[j.0], s.jobs[j]) {
      JobStaysSound(cfg, s, after, s.records[j.0], after.records[j.0], s.jobs[j]);
    }
    forall i | 0 <= i < |s.records| && s.records[i].status == Processed
      ensures HandledUpTo(cfg, after, after.records[i], |ConsumersOf(cfg, after.records[i])|)
    {
      HandledStays(cfg, s, after, s.records[i], after.records[i], |ConsumersOf(cfg, s.records[i])|);
    }
  }

  lemma FreshJobSound(cfg: Config, after: State, r: Record)
    ensures JobSound(cfg, after, r, FirstPc(cfg, r))
  {
  }

  lemma FreshJobsAre(cfg: Config, s: State, chosen: seq<nat>, j: JobId)
    requires j in FreshJobs(cfg, s, chosen)
    ensures j.0 in chosen && j.0 < |s.records| && j.1 == s.records[j.0].attempts + 1 && FreshJobs(cfg, s, chosen)[j] == FirstPc(cfg, s.records[j.0])
  {
    var i :| i in chosen && i < |s.records| && NameOf(s, i) == j;
  }

  lemma ClaimedJobSafe(cfg: Config, s: State, worker: string, now: Time, skip: set<nat>, limit: nat, j: JobId)
    requires j in FreshJobs(cfg, s, Chosen(cfg, s.records, skip, limit, now, |s.records|))
    ensures var after := ClaimStep(cfg, s, worker, now, skip, limit);
            j in after.jobs && j.0 < |after.records| && j.1 == after.records[j.0].attempts && JobSound(cfg, after, after.records[j.0], after.jobs[j])
  {
    var after := ClaimStep(cfg, s, worker, now, skip, limit);
    FreshJobsAre(cfg, s, Chosen(cfg, s.records, skip, limit, now, |s.records|), j);
    FreshJobSound(cfg, after, s.records[j.0]);
    JobStaysSound(cfg, after, after, s.records[j.0], after.records[j.0], after.jobs[j]);
  }

  lemma ClaimSafe(cfg: Config, s: State, worker: string, now: Time, skip: set<nat>, limit: nat)
    requires Safe(cfg, s)
    ensures Safe(cfg, ClaimStep(cfg, s, worker, now, skip, limit))
  {
    CarriesOver(cfg, s, Claim(worker, now, skip, limit));
    var after := ClaimStep(cfg, s, worker, now, skip, limit);
    var started := FreshJobs(cfg, s, Chosen(cfg, s.records, skip, limit, now, |s.records|));
    forall j | j in after.jobs ensures j.0 < |after.records| && j.1 <= after.records[j.0].attempts && JobSound(cfg, after, after.records[j.0], after.jobs[j]) {
      if j in started { ClaimedJobSafe(cfg, s, worker, now, skip, limit, j); }
    }
  }

  /** After a job moves, only its own place needs a new reason. */
  lemma MoveSafe(cfg: Config, s: State, after: State, step: Step, job: JobId)
    requires Safe(cfg, s) && HasKey(cfg, s, job) && after == Apply(cfg, s, step)
    requires after.records == s.records
    requires job in after.jobs && after.jobs == s.jobs[job := after.jobs[job]]
    requires JobSound(cfg, after, s.records[job.0], after.jobs[job])
    requires forall key :: key in after.rows && after.rows[key] == Done ==> Handled(after, key)
    ensures Safe(cfg, after)
  {
    CarriesOver(cfg, s, step);
  }

  /** Once consumer `k` is known to have handled the event, the job may stand anywhere behind it. */
  lemma NextSound(cfg: Config, s: State, r: Record, k: nat)
    requires k < |ConsumersOf(cfg, r)| && HandledUpTo(cfg, s, r, k) && Handled(s, (ConsumersOf(cfg, r)[k], r.event))
    ensures JobSound(cfg, s, r, PcFor(cfg, r, k + 1)) && JobSound(cfg, s, r, Marking(k))
  {
  }

  lemma StartSafe(cfg: Config, s: State, job: JobId, outcome: Outcome)
    requires Safe(cfg, s) && HasKey(cfg, s, job) && s.jobs[job].AtConsumer?
    ensures Safe(cfg, StartStep(cfg, s, job, outcome))
  {
    var after, r, k := StartStep(cfg, s, job, outcome), s.records[job.0], s.jobs[job].k;
    HandledStays(cfg, s, after, r, r, k);
    if Handled(after, KeyOf(cfg, s, job)) { NextSound(cfg, after, r, k); }
    MoveSafe(cfg, s, after, StartConsumer(job, outcome), job);
  }

  lemma HandleSafe(cfg: Config, s: State, job: JobId, ok: bool)
    requires Safe(cfg, s) && HasKey(cfg, s, job) && s.jobs[job].Handling?
    ensures Safe(cfg, HandleStep(cfg, s, job, ok))
  {
    var after, r, k := HandleStep(cfg, s, job, ok), s.records[job.0], s.jobs[job].k;
    HandledOnlyGrows(cfg, s, Handle(job, ok));
    HandledStays(cfg, s, after, r, r, k);
    if ok { NextSound(cfg, after, r, k); }
    MoveSafe(cfg, s, after, Handle(job, ok), job);
  }

  lemma MarkDoneSafe(cfg: Config, s: State, job: JobId, outcome: Outcome)
    requires Safe(cfg, s) && HasKey(cfg, s, job) && s.jobs[job].Marking?
    ensures Safe(cfg, MarkDoneStep(cfg, s, job, outcome))
  {
    var after, r, k := MarkDoneStep(cfg, s, job, outcome), s.records[job.0], s.jobs[job].k;
    HandledStays(cfg, s, after, r, r, k + 1);
    NextSound(cfg, after, r, k);
    MoveSafe(cfg, s, after, MarkDone(job, outcome), job);
  }

  lemma MarkErroredSafe(cfg: Config, s: State, job: JobId, committed: bool)
    requires Safe(cfg, s) && HasKey(cfg, s, job) && s.jobs[job].MarkingErrored?
    ensures Safe(cfg, MarkErroredStep(cfg, s, job, committed))
  {
    MoveSafe(cfg, s, MarkErroredStep(cfg, s, job, committed), MarkErrored(job, committed), job);
  }

  lemma EndingStepSafe(cfg: Config, s: State, step: Step)
    requires Safe(cfg, s) && (step.RetryOrFail? || step.Finish? || step.FailUndecodable? || step.Crash?)
    ensures Safe(cfg, Apply(cfg, s, step))
  {
    CarriesOver(cfg, s, step);
    var after := Apply(cfg, s, step);
    if Live(s, step.job) && after != s {
      assert JobSound(cfg, after, after.records[step.job.0], s.jobs[step.job]);
    }
  }

  lemma StepSafe(cfg: Config, s: State, step: Step)
    requires Safe(cfg, s)
    ensures Safe(cfg, Apply(cfg, s, step))
  {
    match step
    case Enqueue(_, _, _, _, _) => CarriesOver(cfg, s, step);
    case Claim(worker, now, skip, limit) => ClaimSafe(cfg, s, worker, now, skip, limit);
    case StartConsumer(j, outcome) => if HasKey(cfg, s, j) && s.jobs[j].AtConsumer? { StartSafe(cfg, s, j, outcome); }
    case Handle(j, ok) => if HasKey(cfg, s, j) && s.jobs[j].Handling? { HandleSafe(cfg, s, j, ok); }
    case MarkDone(j, outcome) => if HasKey(cfg, s, j) && s.jobs[j].Marking? { MarkDoneSafe(cfg, s, j, outcome); }
    case MarkErrored(j, committed) => if HasKey(cfg, s, j) && s.jobs[j].MarkingErrored? { MarkErroredSafe(cfg, s, j, committed); }
    case _ => EndingStepSafe(cfg, s, step);
  }

  lemma {:induction false} EveryRunSafe(cfg: Config, steps: seq<Step>)
    ensures Safe(cfg, Run(cfg, steps))
  {
    if steps != [] {
      EveryRunSafe(cfg, steps[..|steps| - 1]);
      StepSafe(cfg, Run(cfg, steps[..|steps| - 1]), steps[|steps| - 1]);
    }
  }

  /**
   Under every interleaving a row marked processed has had Handle succeed for its event in every
   consumer of its destination or, failing that, of its topic.
   */
  lemma ProcessedMeansHandled(cfg: Config, steps: seq<Step>, i: nat, c: string)
    requires i < |Run(cfg, steps).records| && Run(cfg, steps).records[i].status == Processed
    requires c in ConsumersOf(cfg, Run(cfg, steps).records[i])
    ensures Count(Run(cfg, steps).successes, (c, Run(cfg, steps).records[i].event)) > 0
  {
    EveryRunSafe(cfg, steps);
    var r := Run(cfg, steps).records[i];
    var k :| 0 <= k < |ConsumersOf(cfg, r)| && ConsumersOf(cfg, r)[k] == c;
    assert Handled(Run(cfg, steps), (ConsumersOf(cfg, r)[k], r.event));
  }
}
