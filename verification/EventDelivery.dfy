/** The rows that the commands write meet the routing condition of OutboxDelivery. */
module EventDelivery {
  import opened Common
  import Operations
  import Retries
  import opened Outbox
  import opened OutboxDelivery
  import P = OutboxProtocol

  /** The consumer maps of the realtime gateway and of the worker, taken together. */
  const CONSUMERS: map<string, seq<string>> :=
    map["realtime.operations" := ["realtime-gateway"],
        "analytics.operations" := ["analytics-projector"],
        "audit.operations" := ["audit-reporter"]]

  /** Row `3k + m` belongs to event `k` and destination `m`. */
  lemma {:induction false} FanOutAt(events: seq<Operations.Event>, i: nat)
    requires i < |Retries.FanOut(events)|
    ensures |Retries.FanOut(events)| == 3 * |events| && i / 3 < |events|
    ensures Retries.FanOut(events)[i].event == events[i / 3].id
    ensures Retries.FanOut(events)[i].destination == Operations.OperationDestinations()[i % 3]
  {
    if events != [] {
      var before := events[..|events| - 1];
      FanOutLength(before);
      if i < |Retries.FanOut(before)| {
        FanOutAt(before, i);
      }
    }
  }

  lemma {:induction false} FanOutLength(events: seq<Operations.Event>)
    ensures |Retries.FanOut(events)| == 3 * |events|
  {
    if events != [] { FanOutLength(events[..|events| - 1]); }
  }

  /** Outbox records as the workers see them carry the routing the commands wrote. */
  ghost predicate Carries(records: seq<Record>, rows: seq<Operations.OutboxRow>) {
    && |records| == |rows|
    && forall i :: 0 <= i < |rows| ==>
         records[i].event == rows[i].event && records[i].topic == rows[i].topic && records[i].destination == rows[i].destination
  }

  /** In every run of commands each deployed consumer reaches an event through one outbox row. */
  lemma CommandsRouteOnce(steps: seq<Operations.Step>, cfg: Config, records: seq<Record>)
    requires cfg.consumers == CONSUMERS && Carries(records, Operations.Run(Operations.EMPTY, steps).outbox)
    ensures SingleRoute(cfg, records)
  {
    var db := Operations.Run(Operations.EMPTY, steps);
    Retries.EveryRunFansOut(steps);
    forall i, j, c | 0 <= i < |records| && 0 <= j < |records| && records[i].event == records[j].event
      ensures Reaches(cfg, records[i], c) && Reaches(cfg, records[j], c) ==> i == j
    {
      FanOutAt(db.events, i);
      FanOutAt(db.events, j);
      if i != j {
        assert i / 3 == j / 3 && i % 3 != j % 3;
        DestinationsDiffer(i % 3, j % 3, c);
      }
    }
  }

  lemma DestinationsDiffer(m: nat, n: nat, c: string)
    requires m < 3 && n < 3 && m != n
    ensures var d := Operations.OperationDestinations();
            && d[m] in CONSUMERS && d[n] in CONSUMERS && CONSUMERS[d[m]] != [] && CONSUMERS[d[n]] != []
            && !(c in CONSUMERS[d[m]] && c in CONSUMERS[d[n]])
  {
    var d := Operations.OperationDestinations();
    assert d[0][0] != d[1][0] && d[1][1] != d[2][1];
    var gateway, projector, reporter := "realtime-gateway", "analytics-projector", "audit-reporter";
    assert gateway[0] != projector[0] && projector[1] != reporter[1];
    assert CONSUMERS[d[0]] == [gateway] && CONSUMERS[d[1]] == [projector] && CONSUMERS[d[2]] == [reporter];
  }

  /**
   Commands and workers together: over the rows that any run of commands wrote, in any run of workers that
   reclaim rows only from stopped holders, a consumer that a processed row reaches has handled the row's
   event, and at most once more than its done marks were lost.
   */
  lemma CommandsHandledOnce(commands: seq<Operations.Step>, cfg: Config, steps: seq<P.Step>, i: nat, c: string)
    requires cfg.consumers == CONSUMERS && Exclusive(cfg, steps)
    requires Carries(P.Run(cfg, steps).records, Operations.Run(Operations.EMPTY, commands).outbox)
    requires i < |P.Run(cfg, steps).records| && Reaches(cfg, P.Run(cfg, steps).records[i], c)
    ensures var s := P.Run(cfg, steps); var key := (c, s.records[i].event);
            && P.Count(s.successes, key) <= P.Count(s.lost, key) + 1
            && (s.records[i].status == Processed ==> 1 <= P.Count(s.successes, key))
  {
    var s := P.Run(cfg, steps);
    CommandsRouteOnce(commands, cfg, s.records);
    AtMostOnceBesidesLostMarks(cfg, steps, (c, s.records[i].event));
    if s.records[i].status == Processed { P.ProcessedMeansHandled(cfg, steps, i, c); }
  }

  lemma RowAt(events: seq<Operations.Event>, k: nat, m: nat)
    requires k < |events| && m < 3
    ensures |Retries.FanOut(events)| == 3 * |events| && 3 * k + m < 3 * |events|
    ensures Retries.FanOut(events)[3 * k + m].event == events[k].id
    ensures Retries.FanOut(events)[3 * k + m].destination == Operations.OperationDestinations()[m]
  {
    FanOutLength(events);
    FanOutAt(events, 3 * k + m);
    assert (3 * k + m) / 3 == k && (3 * k + m) % 3 == m;
  }

  lemma DestinationReaches(cfg: Config, r: Record, m: nat)
    requires cfg.consumers == CONSUMERS && m < 3 && r.destination == Operations.OperationDestinations()[m]
    ensures r.destination in CONSUMERS && ConsumersOf(cfg, r) == CONSUMERS[r.destination]
  {
    DestinationsDiffer(m, (m + 1) % 3, "");
  }

  /** Every event of the commands has, for each deployed destination, one row that reaches its consumers. */
  lemma EveryEventHasItsRows(commands: seq<Operations.Step>, cfg: Config, records: seq<Record>, k: nat, m: nat)
    requires cfg.consumers == CONSUMERS && Carries(records, Operations.Run(Operations.EMPTY, commands).outbox)
    requires k < |Operations.Run(Operations.EMPTY, commands).events| && m < 3
    ensures 3 * k + m < |records|
    ensures var r := records[3 * k + m];
            && r.event == Operations.Run(Operations.EMPTY, commands).events[k].id
            && r.destination == Operations.OperationDestinations()[m]
            && r.destination in CONSUMERS && ConsumersOf(cfg, r) == CONSUMERS[r.destination]
  {
    Retries.EveryRunFansOut(commands);
    RowAt(Operations.Run(Operations.EMPTY, commands).events, k, m);
    DestinationReaches(cfg, records[3 * k + m], m);
  }
}
