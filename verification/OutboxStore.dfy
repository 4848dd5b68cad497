/** The outbox tables updated in place, and a worker's uninterrupted pass over one claimed row. */
module OutboxStore {
  import opened Common
  import opened Outbox

  class Store {
    const cfg: Config
    var records: seq<Record>
    var rows: map<ConsumerKey, ConsumerStatus>

    constructor (cfg: Config)
      ensures this.cfg == cfg && records == [] && rows == map[]
    {
      this.cfg := cfg;
      records, rows := [], map[];
    }

    method Enqueue(event: Id, topic: string, destination: string, decodes: bool, now: Time)
      modifies `records
      ensures records == old(records) + [NewRecord(event, topic, destination, decodes, now)]
    {
      records := records + [Record(event, topic, destination, decodes, 0, Pending, now, None, None)];
    }

    /** Scans in creation order, locking rows until the batch is full. */
    method Claim(worker: string, now: Time, skip: set<nat>, limit: nat) returns (claimed: seq<nat>)
      modifies `records
      ensures claimed == Chosen(cfg, old(records), skip, limit, now, |old(records)|)
      ensures records == ClaimedRows(old(records), claimed, now, worker)
    {
      claimed := [];
      for i := 0 to |records|
        invariant |records| == |old(records)|
        invariant claimed == Chosen(cfg, old(records), skip, limit, now, i)
        invariant forall j :: j in claimed ==> j < i
        invariant forall j :: 0 <= j < |records| ==>
                    records[j] == if j in claimed then ClaimedRow(old(records)[j], now, worker) else old(records)[j]
      {
        if |claimed| < limit && i !in skip && Claimable(cfg, records[i], now) {
          var r := records[i];
          records := records[i := r.(status := Processing, lockedAt := Some(now), lockedBy := Some(worker), attempts := r.attempts + 1)];
          claimed := claimed + [i];
        }
      }
    }

    method MarkProcessed(i: nat)
      requires i < |records|
      modifies `records
      ensures records == old(records)[i := ProcessedRow(old(records)[i])]
    {
      records := records[i := records[i].(status := Processed, lockedAt := None, lockedBy := None)];
    }

    method MarkFailed(i: nat)
      requires i < |records|
      modifies `records
      ensures records == old(records)[i := FailedRow(old(records)[i])]
    {
      records := records[i := records[i].(status := Failed, lockedAt := None, lockedBy := None)];
    }

    method RetryOrFail(i: nat, attempts: nat, now: Time)
      requires i < |records|
      modifies `records
      ensures records == old(records)[i := RetriedRow(cfg, old(records)[i], attempts, now)]
    {
      if attempts >= cfg.maxAttempts {
        MarkFailed(i);
      } else {
        var delay := Backoff(cfg, attempts);
        records := records[i := records[i].(status := Pending, availableAt := now + Milliseconds(delay), lockedAt := None, lockedBy := None)];
      }
    }

    /** Inserts the idempotency row on first sight and reports whether the consumer is already done. */
    method StartConsumer(key: ConsumerKey) returns (replayed: bool)
      modifies `rows
      ensures rows == StartedRows(old(rows), key) && replayed == (rows[key] == Done)
    {
      if key !in rows {
        rows := rows[key := Started];
        return false;
      }
      return rows[key] == Done;
    }

    method MarkConsumer(key: ConsumerKey, status: ConsumerStatus)
      modifies `rows
      ensures rows == MarkedRows(old(rows), key, status)
    {
      if key in rows { rows := rows[key := status]; }
    }

    /** `handleConsumer` with `answer` standing for the consumer's Handle. */
    method HandleConsumer(key: ConsumerKey, answer: bool) returns (ok: bool)
      modifies `rows
      ensures var started := StartedRows(old(rows), key);
              && ok == (started[key] == Done || answer)
              && rows == if started[key] == Done then started else MarkedRows(started, key, if answer then Done else Errored)
    {
      var replayed := StartConsumer(key);
      if replayed { return true; }
      if !answer {
        MarkConsumer(key, Errored);
        return false;
      }
      MarkConsumer(key, Done);
      return true;
    }

    /** Walks the consumers in order and stops at the first error. */
    method ProcessRecord(i: nat, attempts: nat, answers: seq<bool>, now: Time) returns (ok: bool)
      requires i < |records| && |answers| == |ConsumersOf(cfg, records[i])|
      modifies this
      ensures var r := old(records)[i]; var cs := ConsumersOf(cfg, r);
              && (r.decodes ==> ok == WalkSucceeds(old(rows), r.event, cs, answers, 0)
                                && rows == WalkedRows(old(rows), r.event, cs, answers, 0))
              && (!r.decodes ==> !ok && rows == old(rows))
              && records == old(records)[i := PassedRow(cfg, r, attempts, ok, now)]
    {
      var r := records[i];
      if !r.decodes {
        MarkFailed(i);
        return false;
      }
      var cs := ConsumersOf(cfg, r);
      for k := 0 to |cs|
        invariant records == old(records)
        invariant WalkedRows(rows, r.event, cs, answers, k) == WalkedRows(old(rows), r.event, cs, answers, 0)
        invariant WalkSucceeds(rows, r.event, cs, answers, k) == WalkSucceeds(old(rows), r.event, cs, answers, 0)
      {
        var handled := HandleConsumer((cs[k], r.event), answers[k]);
        if !handled {
          RetryOrFail(i, attempts, now);
          return false;
        }
      }
      MarkProcessed(i);
      return true;
    }
  }
}
