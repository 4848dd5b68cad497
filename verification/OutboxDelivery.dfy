/** How often a consumer handles an event when leases are long enough. */
module OutboxDelivery {
  import opened Common
  import opened Outbox
  import opened OutboxProtocol

  /** A row is claimed again only after its previous holder has stopped. */
  ghost predicate ExclusiveStep(cfg: Config, s: State, step: Step) {
    step.Claim? ==> forall i, j :: i in Chosen(cfg, s.records, step.skip, step.limit, step.now, |s.records|) && j in s.jobs ==> j.0 != i
  }

  ghost predicate Exclusive(cfg: Config, steps: seq<Step>) {
    steps != [] ==> Exclusive(cfg, steps[..|steps| - 1]) && ExclusiveStep(cfg, Run(cfg, steps[..|steps| - 1]), steps[|steps| - 1])
  }

  predicate Reaches(cfg: Config, r: Record, c: string) {
    c in ConsumersOf(cfg, r)
  }

  /** Each consumer reaches an event through one row. */
  ghost predicate SingleRoute(cfg: Config, records: seq<Record>) {
    forall i, j, c | 0 <= i < |records| && 0 <= j < |records| && records[i].event == records[j].event ::
      Reaches(cfg, records[i], c) && Reaches(cfg, records[j], c) ==> i == j
  }

  ghost predicate OneJobPerRow(s: State) {
    forall j, j' :: j in s.jobs && j' in s.jobs && j.0 == j'.0 ==> j == j'
  }

  /** Past the idempotency transaction and not yet done with the consumer. */
  predicate Engaged(pc: Pc) {
    pc.Handling? || pc.Marking? || pc.MarkingErrored?
  }

  predicate IsDone(s: State, key: ConsumerKey) {
    key in s.rows && s.rows[key] == Done
  }

  /** Some job has a success whose mark is still to be written. */
  ghost predicate InMark(cfg: Config, s: State, key: ConsumerKey) {
    exists j :: HasKey(cfg, s, j) && s.jobs[j].Marking? && KeyOf(cfg, s, j) == key
  }

  ghost predicate EngagedRowsOpen(cfg: Config, s: State) {
    forall j :: HasKey(cfg, s, j) && Engaged(s.jobs[j]) ==> KeyOf(cfg, s, j) in s.rows && s.rows[KeyOf(cfg, s, j)] != Done
  }

  /** Every success is lost, in the hands of a job, or recorded. */
  ghost predicate Accounted(cfg: Config, s: State) {
    forall key :: Count(s.successes, key) == Count(s.lost, key) + (if IsDone(s, key) then 1 else 0) + (if InMark(cfg, s, key) then 1 else 0)
  }

  ghost predicate Orderly(cfg: Config, s: State) {
    OneJobPerRow(s) && EngagedRowsOpen(cfg, s) && Accounted(cfg, s) && SingleRoute(cfg, s.records)
  }

  /** Two jobs concerned with the same consumer and event are the same job. */
  lemma KeyHolderIsUnique(cfg: Config, s: State, j: JobId, j': JobId)
    requires OneJobPerRow(s) && SingleRoute(cfg, s.records)
    requires HasKey(cfg, s, j) && HasKey(cfg, s, j') && KeyOf(cfg, s, j) == KeyOf(cfg, s, j')
    ensures j == j'
  {
    var c := KeyOf(cfg, s, j).0;
    assert Reaches(cfg, s.records[j.0], c) && Reaches(cfg, s.records[j'.0], c);
  }

  /** Jobs that did not move keep their consumer, as rows keep their routing. */
  lemma KeysCarryOver(cfg: Config, s: State, after: State, j: JobId)
    requires Extends(after, s) && j in s.jobs && j in after.jobs && s.jobs[j] == after.jobs[j] && j.0 < |s.records|
    ensures HasKey(cfg, after, j) == HasKey(cfg, s, j)
    ensures HasKey(cfg, s, j) ==> KeyOf(cfg, after, j) == KeyOf(cfg, s, j)
  {
    assert ConsumersOf(cfg, after.records[j.0]) == ConsumersOf(cfg, s.records[j.0]);
  }

  /** A step that only adds rows or jobs at their first place, or ends jobs that hold no success. */
  lemma QuietStepOrderly(cfg: Config, s: State, after: State)
    requires Orderly(cfg, s) && Safe(cfg, s) && Extends(after, s) && SingleRoute(cfg, after.records) && OneJobPerRow(after)
    requires after.rows == s.rows && after.successes == s.successes && after.lost == s.lost
    requires forall j :: j in after.jobs ==> (j in s.jobs && after.jobs[j] == s.jobs[j]) || !Engaged(after.jobs[j])
    requires forall j :: j in s.jobs && s.jobs[j].Marking? ==> j in after.jobs && after.jobs[j] == s.jobs[j]
    ensures Orderly(cfg, after)
  {
    forall j | HasKey(cfg, after, j) && Engaged(after.jobs[j]) ensures KeyOf(cfg, after, j) in after.rows && after.rows[KeyOf(cfg, after, j)] != Done {
      KeysCarryOver(cfg, s, after, j);
    }
    forall key ensures InMark(cfg, after, key) == InMark(cfg, s, key) {
      if InMark(cfg, s, key) {
        var j :| HasKey(cfg, s, j) && s.jobs[j].Marking? && KeyOf(cfg, s, j) == key;
        KeysCarryOver(cfg, s, after, j);
      }
      if InMark(cfg, after, key) {
        var j :| HasKey(cfg, after, j) && after.jobs[j].Marking? && KeyOf(cfg, after, j) == key;
        KeysCarryOver(cfg, s, after, j);
      }
    }
  }

  lemma ClaimedJobsAreAlone(cfg: Config, s: State, step: Step)
    requires OneJobPerRow(s) && step.Claim? && ExclusiveStep(cfg, s, step)
    ensures OneJobPerRow(Apply(cfg, s, step))
    ensures forall j :: j in s.jobs ==> j in Apply(cfg, s, step).jobs && Apply(cfg, s, step).jobs[j] == s.jobs[j]
    ensures forall j :: j in Apply(cfg, s, step).jobs && j !in s.jobs ==> !Engaged(Apply(cfg, s, step).jobs[j])
  {
    var chosen := Chosen(cfg, s.records, step.skip, step.limit, step.now, |s.records|);
    var started := FreshJobs(cfg, s, chosen);
    forall j | j in started ensures j.0 in chosen && j.0 < |s.records| && j == NameOf(s, j.0) && !Engaged(started[j]) && j !in s.jobs {
      FreshJobsAre(cfg, s, chosen, j);
    }
    assert Apply(cfg, s, step).jobs == s.jobs + started;
  }

  lemma ClaimOrderly(cfg: Config, s: State, step: Step)
    requires Orderly(cfg, s) && Safe(cfg, s) && step.Claim? && ExclusiveStep(cfg, s, step) && SingleRoute(cfg, Apply(cfg, s, step).records)
    ensures Orderly(cfg, Apply(cfg, s, step))
  {
    ClaimedJobsAreAlone(cfg, s, step);
    ApplyExtends(cfg, s, step);
    QuietStepOrderly(cfg, s, Apply(cfg, s, step));
  }

  /** Adding a row, or ending a job that stands at no consumer, leaves the other jobs where they are. */
  lemma EndLeavesOthers(cfg: Config, s: State, step: Step)
    requires step.Enqueue? || step.RetryOrFail? || step.Finish? || step.FailUndecodable?
    ensures var after := Apply(cfg, s, step);
            && after.rows == s.rows && after.successes == s.successes && after.lost == s.lost
            && (forall j :: j in after.jobs ==> j in s.jobs && after.jobs[j] == s.jobs[j])
            && (forall j :: j in s.jobs && s.jobs[j].Marking? ==> j in after.jobs)
  {
  }

  lemma EndOrderly(cfg: Config, s: State, step: Step)
    requires Orderly(cfg, s) && Safe(cfg, s) && (step.Enqueue? || step.RetryOrFail? || step.Finish? || step.FailUndecodable?)
    requires SingleRoute(cfg, Apply(cfg, s, step).records)
    ensures Orderly(cfg, Apply(cfg, s, step))
  {
    ApplyExtends(cfg, s, step);
    EndLeavesOthers(cfg, s, step);
    QuietStepOrderly(cfg, s, Apply(cfg, s, step));
  }

  /** One engaged job of key `key` moves or goes; every other job, and every other key, is as before. */
  lemma OthersStand(cfg: Config, s: State, after: State, job: JobId)
    requires Orderly(cfg, s) && HasKey(cfg, s, job) && after.records == s.records
    requires after.jobs - {job} == s.jobs - {job}
    requires forall key :: key != KeyOf(cfg, s, job) ==>
               Count(after.successes, key) == Count(s.successes, key) && Count(after.lost, key) == Count(s.lost, key)
               && (key in s.rows <==> key in after.rows) && (key in s.rows ==> after.rows[key] == s.rows[key])
    requires job in after.jobs && Engaged(after.jobs[job]) ==>
               HasKey(cfg, after, job) && KeyOf(cfg, after, job) == KeyOf(cfg, s, job)
               && KeyOf(cfg, s, job) in after.rows && after.rows[KeyOf(cfg, s, job)] != Done
    requires var key := KeyOf(cfg, s, job);
             Count(after.successes, key) == Count(after.lost, key) + (if IsDone(after, key) then 1 else 0)
                                            + (if job in after.jobs && after.jobs[job].Marking? then 1 else 0)
    ensures Orderly(cfg, after)
  {
    OtherJobsStand(cfg, s, after, job);
    OtherMarksStand(cfg, s, after, job);
    EngagedStand(cfg, s, after, job);
  }

  lemma OtherJobsStand(cfg: Config, s: State, after: State, job: JobId)
    requires OneJobPerRow(s) && SingleRoute(cfg, s.records) && HasKey(cfg, s, job) && after.records == s.records
    requires after.jobs - {job} == s.jobs - {job}
    ensures OneJobPerRow(after)
    ensures forall j :: j in after.jobs && j != job ==> j in s.jobs && after.jobs[j] == s.jobs[j]
    ensures forall j :: HasKey(cfg, s, j) && j != job ==> j in after.jobs && after.jobs[j] == s.jobs[j] && KeyOf(cfg, s, j) != KeyOf(cfg, s, job)
  {
    forall j | j in after.jobs && j != job ensures j in s.jobs && after.jobs[j] == s.jobs[j] {
      assert j in after.jobs - {job} && (after.jobs - {job})[j] == after.jobs[j];
    }
    forall j | HasKey(cfg, s, j) && j != job ensures j in after.jobs && after.jobs[j] == s.jobs[j] && KeyOf(cfg, s, j) != KeyOf(cfg, s, job) {
      assert j in s.jobs - {job} && (s.jobs - {job})[j] == s.jobs[j];
      if KeyOf(cfg, s, j) == KeyOf(cfg, s, job) { KeyHolderIsUnique(cfg, s, j, job); }
    }
  }

  lemma EngagedStand(cfg: Config, s: State, after: State, job: JobId)
    requires EngagedRowsOpen(cfg, s) && HasKey(cfg, s, job) && after.records == s.records
    requires forall j :: j in after.jobs && j != job ==> j in s.jobs && after.jobs[j] == s.jobs[j]
    requires forall j :: HasKey(cfg, s, j) && j != job ==> KeyOf(cfg, s, j) != KeyOf(cfg, s, job)
    requires forall key :: key != KeyOf(cfg, s, job) && key in s.rows ==> key in after.rows && after.rows[key] == s.rows[key]
    requires job in after.jobs && Engaged(after.jobs[job]) ==>
               HasKey(cfg, after, job) && KeyOf(cfg, after, job) == KeyOf(cfg, s, job)
               && KeyOf(cfg, s, job) in after.rows && after.rows[KeyOf(cfg, s, job)] != Done
    ensures EngagedRowsOpen(cfg, after)
  {
    forall j | HasKey(cfg, after, j) && Engaged(after.jobs[j]) ensures KeyOf(cfg, after, j) in after.rows && after.rows[KeyOf(cfg, after, j)] != Done {
      if j != job { assert HasKey(cfg, s, j) && KeyOf(cfg, s, j) == KeyOf(cfg, after, j); }
    }
  }

  lemma OtherMarksStand(cfg: Config, s: State, after: State, job: JobId)
    requires HasKey(cfg, s, job) && after.records == s.records
    requires forall j :: j in after.jobs && j != job ==> j in s.jobs && after.jobs[j] == s.jobs[j]
    requires forall j :: HasKey(cfg, s, j) && j != job ==> j in after.jobs && after.jobs[j] == s.jobs[j] && KeyOf(cfg, s, j) != KeyOf(cfg, s, job)
    requires job in after.jobs && Engaged(after.jobs[job]) ==> HasKey(cfg, after, job) && KeyOf(cfg, after, job) == KeyOf(cfg, s, job)
    ensures forall key :: key != KeyOf(cfg, s, job) ==> InMark(cfg, after, key) == InMark(cfg, s, key)
    ensures InMark(cfg, after, KeyOf(cfg, s, job)) <==> job in after.jobs && after.jobs[job].Marking?
  {
    forall key | key != KeyOf(cfg, s, job) ensures InMark(cfg, after, key) == InMark(cfg, s, key) {
      if InMark(cfg, s, key) {
        var j :| HasKey(cfg, s, j) && s.jobs[j].Marking? && KeyOf(cfg, s, j) == key;
        assert HasKey(cfg, after, j) && KeyOf(cfg, after, j) == key;
      }
      if InMark(cfg, after, key) {
        var j :| HasKey(cfg, after, j) && after.jobs[j].Marking? && KeyOf(cfg, after, j) == key;
        assert j != job && HasKey(cfg, s, j) && KeyOf(cfg, s, j) == key;
      }
    }
    if InMark(cfg, after, KeyOf(cfg, s, job)) {
      var j :| HasKey(cfg, after, j) && after.jobs[j].Marking? && KeyOf(cfg, after, j) == KeyOf(cfg, s, job);
    }
  }

  /** Only this job holds the key, so its own place decides whether a success is in its hands. */
  lemma MarkIsOurs(cfg: Config, s: State, job: JobId)
    requires Orderly(cfg, s) && HasKey(cfg, s, job)
    ensures InMark(cfg, s, KeyOf(cfg, s, job)) <==> s.jobs[job].Marking?
  {
    if InMark(cfg, s, KeyOf(cfg, s, job)) {
      var j :| HasKey(cfg, s, j) && s.jobs[j].Marking? && KeyOf(cfg, s, j) == KeyOf(cfg, s, job);
      KeyHolderIsUnique(cfg, s, j, job);
    }
  }

  lemma StartOrderly(cfg: Config, s: State, job: JobId, outcome: Outcome)
    requires Orderly(cfg, s) && HasKey(cfg, s, job) && s.jobs[job].AtConsumer?
    ensures Orderly(cfg, StartStep(cfg, s, job, outcome))
  {
    MarkIsOurs(cfg, s, job);
    OthersStand(cfg, s, StartStep(cfg, s, job, outcome), job);
  }

  lemma HandleOrderly(cfg: Config, s: State, job: JobId, ok: bool)
    requires Orderly(cfg, s) && HasKey(cfg, s, job) && s.jobs[job].Handling?
    ensures Orderly(cfg, HandleStep(cfg, s, job, ok))
  {
    MarkIsOurs(cfg, s, job);
    OthersStand(cfg, s, HandleStep(cfg, s, job, ok), job);
  }

  lemma MarkDoneOrderly(cfg: Config, s: State, job: JobId, outcome: Outcome)
    requires Orderly(cfg, s) && HasKey(cfg, s, job) && s.jobs[job].Marking?
    ensures Orderly(cfg, MarkDoneStep(cfg, s, job, outcome))
  {
    MarkIsOurs(cfg, s, job);
    OthersStand(cfg, s, MarkDoneStep(cfg, s, job, outcome), job);
  }

  lemma MarkErroredOrderly(cfg: Config, s: State, job: JobId, committed: bool)
    requires Orderly(cfg, s) && HasKey(cfg, s, job) && s.jobs[job].MarkingErrored?
    ensures Orderly(cfg, MarkErroredStep(cfg, s, job, committed))
  {
    MarkIsOurs(cfg, s, job);
    OthersStand(cfg, s, MarkErroredStep(cfg, s, job, committed), job);
  }

  lemma CrashOrderly(cfg: Config, s: State, job: JobId)
    requires Orderly(cfg, s) && Safe(cfg, s) && job in s.jobs
    ensures Orderly(cfg, Apply(cfg, s, Crash(job)))
  {
    var after := Apply(cfg, s, Crash(job));
    if HasKey(cfg, s, job) {
      MarkIsOurs(cfg, s, job);
      OthersStand(cfg, s, after, job);
    } else {
      QuietStepOrderly(cfg, s, after);
    }
  }

  lemma StepOrderly(cfg: Config, s: State, step: Step)
    requires Orderly(cfg, s) && Safe(cfg, s) && ExclusiveStep(cfg, s, step) && SingleRoute(cfg, Apply(cfg, s, step).records)
    ensures Orderly(cfg, Apply(cfg, s, step))
  {
    match step
    case Claim(_, _, _, _) => ClaimOrderly(cfg, s, step);
    case StartConsumer(j, outcome) => if HasKey(cfg, s, j) && s.jobs[j].AtConsumer? { StartOrderly(cfg, s, j, outcome); }
    case Handle(j, ok) => if HasKey(cfg, s, j) && s.jobs[j].Handling? { HandleOrderly(cfg, s, j, ok); }
    case MarkDone(j, outcome) => if HasKey(cfg, s, j) && s.jobs[j].Marking? { MarkDoneOrderly(cfg, s, j, outcome); }
    case MarkErrored(j, committed) => if HasKey(cfg, s, j) && s.jobs[j].MarkingErrored? { MarkErroredOrderly(cfg, s, j, committed); }
    case Crash(j) => if j in s.jobs { CrashOrderly(cfg, s, j); }
    case _ => EndOrderly(cfg, s, step);
  }

  lemma RouteOfPrefix(cfg: Config, s: State, step: Step)
    requires SingleRoute(cfg, Apply(cfg, s, step).records)
    ensures SingleRoute(cfg, s.records)
  {
    var after := Apply(cfg, s, step);
    ApplyExtends(cfg, s, step);
    forall i, j, c | 0 <= i < |s.records| && 0 <= j < |s.records| && s.records[i].event == s.records[j].event
      ensures Reaches(cfg, s.records[i], c) && Reaches(cfg, s.records[j], c) ==> i == j
    {
      assert Reaches(cfg, s.records[i], c) == Reaches(cfg, after.records[i], c);
      assert Reaches(cfg, s.records[j], c) == Reaches(cfg, after.records[j], c);
    }
  }

  lemma {:induction false} EveryRunOrderly(cfg: Config, steps: seq<Step>)
    requires Exclusive(cfg, steps) && SingleRoute(cfg, Run(cfg, steps).records)
    ensures Orderly(cfg, Run(cfg, steps))
  {
    if steps != [] {
      var before := steps[..|steps| - 1];
      RouteOfPrefix(cfg, Run(cfg, before), steps[|steps| - 1]);
      EveryRunOrderly(cfg, before);
      EveryRunSafe(cfg, before);
      StepOrderly(cfg, Run(cfg, before), steps[|steps| - 1]);
    }
  }

  /**
   When rows are reclaimed only from stopped holders and each consumer reaches an event through one
   row, Handle succeeds at most once more than its done-marks were lost.
   */
  lemma AtMostOnceBesidesLostMarks(cfg: Config, steps: seq<Step>, key: ConsumerKey)
    requires Exclusive(cfg, steps) && SingleRoute(cfg, Run(cfg, steps).records)
    ensures Count(Run(cfg, steps).successes, key) <= Count(Run(cfg, steps).lost, key) + 1
  {
    EveryRunOrderly(cfg, steps);
    var s := Run(cfg, steps);
    if InMark(cfg, s, key) {
      var j :| HasKey(cfg, s, j) && s.jobs[j].Marking? && KeyOf(cfg, s, j) == key;
      assert !IsDone(s, key);
    }
  }
}
