/** One worker's pass over a record, run alone in the protocol, is the pass of `Outbox` that `OutboxStore` runs on its rows. */
module OutboxPass {
  import opened Common
  import opened Outbox
  import opened OutboxProtocol

  function Play(cfg: Config, s: State, steps: seq<Step>): State
    decreases |steps|
  {
    if steps == [] then s else Play(cfg, Apply(cfg, s, steps[0]), steps[1..])
  }

  lemma First(cfg: Config, s: State, step: Step, rest: seq<Step>)
    ensures Play(cfg, s, [step] + rest) == Play(cfg, Apply(cfg, s, step), rest)
  {
    assert ([step] + rest)[1..] == rest;
  }

  /** A statement of this job that commits and is reported as committed. */
  predicate Commits(step: Step, job: JobId) {
    match step
    case StartConsumer(j, outcome) => j == job && outcome.Committed?
    case Handle(j, _) => j == job
    case MarkDone(j, outcome) => j == job && outcome.Committed?
    case MarkErrored(j, committed) => j == job && committed
    case RetryOrFail(j, _, committed) => j == job && committed
    case Finish(j, committed) => j == job && committed
    case FailUndecodable(j, committed) => j == job && committed
    case _ => false
  }

  ghost predicate AllCommit(steps: seq<Step>, job: JobId) {
    forall m :: 0 <= m < |steps| ==> Commits(steps[m], job)
  }

  /** The job has come to consumer `k`, or to the end of the list. */
  predicate At(cfg: Config, s: State, job: JobId, k: nat) {
    Live(s, job) && k <= |ConsumersOf(cfg, s.records[job.0])| && s.jobs[job] == PcFor(cfg, s.records[job.0], k)
  }

  /** Handle is called and its answer marked; the job goes on or turns to its retry. */
  lemma HandleAlone(cfg: Config, s: State, job: JobId, k: nat, ok: bool) returns (more: seq<Step>)
    requires HasKey(cfg, s, job) && s.jobs[job] == Handling(k)
    ensures AllCommit(more, job)
    ensures var after, key := Play(cfg, s, more), KeyOf(cfg, s, job);
            && after.records == s.records && after.lost == s.lost
            && after.rows == MarkedRows(s.rows, key, if ok then Done else Errored)
            && after.jobs == s.jobs[job := if ok then PcFor(cfg, s.records[job.0], k + 1) else Retrying]
  {
    var handled := Apply(cfg, s, Handle(job, ok));
    var mark := if ok then MarkDone(job, Committed) else MarkErrored(job, true);
    assert HasKey(cfg, handled, job) && KeyOf(cfg, handled, job) == KeyOf(cfg, s, job);
    more := [Handle(job, ok)] + [mark];
    First(cfg, s, Handle(job, ok), [mark]);
    assert [mark] + [] == [mark];
    First(cfg, handled, mark, []);
  }

  lemma StartAlone(cfg: Config, s: State, job: JobId, k: nat)
    requires At(cfg, s, job, k) && k < |ConsumersOf(cfg, s.records[job.0])|
    ensures var key := (ConsumersOf(cfg, s.records[job.0])[k], s.records[job.0].event);
            var started := StartedRows(s.rows, key);
            && HasKey(cfg, s, job) && KeyOf(cfg, s, job) == key
            && Apply(cfg, s, StartConsumer(job, Committed))
            == s.(rows := started, jobs := s.jobs[job := if started[key] == Done then PcFor(cfg, s.records[job.0], k + 1) else Handling(k)])
  {
  }

  lemma {:induction false} WalkAlone(cfg: Config, s: State, job: JobId, answers: seq<bool>, k: nat) returns (more: seq<Step>)
    requires At(cfg, s, job, k) && |answers| == |ConsumersOf(cfg, s.records[job.0])|
    ensures AllCommit(more, job)
    ensures var after, r := Play(cfg, s, more), s.records[job.0];
            && after.records == s.records && after.lost == s.lost
            && after.rows == WalkedRows(s.rows, r.event, ConsumersOf(cfg, r), answers, k)
            && after.jobs == s.jobs[job := if WalkSucceeds(s.rows, r.event, ConsumersOf(cfg, r), answers, k) then Finishing else Retrying]
    decreases |answers| - k
  {
    more := [];
    if k < |answers| {
      StartAlone(cfg, s, job, k);
      var start := StartConsumer(job, Committed);
      var started := Apply(cfg, s, start);
      var rest: seq<Step>;
      if started.jobs[job] == Handling(k) {
        rest := AnsweredAlone(cfg, started, job, answers, k);
      } else {
        rest := WalkAlone(cfg, started, job, answers, k + 1);
      }
      First(cfg, s, start, rest);
      more := [start] + rest;
    } else {
      assert s.jobs == s.jobs[job := Finishing];
    }
  }

  lemma {:induction false} AnsweredAlone(cfg: Config, s: State, job: JobId, answers: seq<bool>, k: nat) returns (more: seq<Step>)
    requires HasKey(cfg, s, job) && s.jobs[job] == Handling(k) && |answers| == |ConsumersOf(cfg, s.records[job.0])| && k < |answers|
    ensures AllCommit(more, job)
    ensures var after, r := Play(cfg, s, more), s.records[job.0];
            var cs, marked := ConsumersOf(cfg, r), MarkedRows(s.rows, KeyOf(cfg, s, job), if answers[k] then Done else Errored);
            && after.records == s.records && after.lost == s.lost
            && after.rows == (if answers[k] then WalkedRows(marked, r.event, cs, answers, k + 1) else marked)
            && after.jobs == s.jobs[job := if answers[k] && WalkSucceeds(marked, r.event, cs, answers, k + 1) then Finishing else Retrying]
    decreases |answers| - k, 0
  {
    more := HandleAlone(cfg, s, job, k, answers[k]);
    if answers[k] {
      var marked := Play(cfg, s, more);
      var rest := WalkAlone(cfg, marked, job, answers, k + 1);
      PlayAppend(cfg, s, more, rest);
      more := more + rest;
    }
  }

  lemma {:induction false} PlayAppend(cfg: Config, s: State, a: seq<Step>, b: seq<Step>)
    ensures Play(cfg, s, a + b) == Play(cfg, Play(cfg, s, a), b)
    decreases |a|
  {
    if a == [] {
      assert a + b == b;
    } else {
      assert (a + b)[1..] == a[1..] + b;
      PlayAppend(cfg, Apply(cfg, s, a[0]), a[1..], b);
    }
  }

  /** What an uninterrupted pass over the row of a claim leaves of the consumer rows and the outbox row. */
  ghost predicate Passed(cfg: Config, s: State, after: State, job: JobId, answers: seq<bool>, now: Time)
    requires Live(s, job) && |answers| == |ConsumersOf(cfg, s.records[job.0])|
  {
    var r := s.records[job.0];
    var cs := ConsumersOf(cfg, r);
    && after.records == s.records[job.0 := PassedRow(cfg, r, job.1, r.decodes && WalkSucceeds(s.rows, r.event, cs, answers, 0), now)]
    && after.rows == (if r.decodes then WalkedRows(s.rows, r.event, cs, answers, 0) else s.rows)
    && after.jobs == s.jobs - {job} && after.lost == s.lost
  }

  /** From a claim on, the statements of one job, each committing and with nothing between them, are that pass. */
  lemma PassAlone(cfg: Config, s: State, job: JobId, answers: seq<bool>, now: Time) returns (more: seq<Step>)
    requires Live(s, job) && s.jobs[job] == FirstPc(cfg, s.records[job.0]) && |answers| == |ConsumersOf(cfg, s.records[job.0])|
    ensures AllCommit(more, job) && Passed(cfg, s, Play(cfg, s, more), job, answers, now)
  {
    var walk: seq<Step> := [];
    if s.records[job.0].decodes { walk := WalkAlone(cfg, s, job, answers, 0); }
    var walked := Play(cfg, s, walk);
    var last := if walked.jobs[job].Undecodable? then FailUndecodable(job, true)
                else if walked.jobs[job].Finishing? then Finish(job, true) else RetryOrFail(job, now, true);
    First(cfg, walked, last, []);
    PlayAppend(cfg, s, walk, [last] + []);
    more := walk + ([last] + []);
  }
}
