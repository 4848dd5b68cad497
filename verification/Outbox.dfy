/**
 Outbox rows and the transactions of `internal/outbox/outbox.go` on them, as functions. Row times
 are milliseconds, configured durations nanoseconds, as in the source.
 */
module Outbox {
  import opened Common

  type Id = nat
  type Time = int

  datatype Status = Pending | Processing | Processed | Failed

  datatype Record = Record(event: Id, topic: string, destination: string, decodes: bool, attempts: nat, status: Status,
                           availableAt: Time, lockedAt: Option<Time>, lockedBy: Option<string>)

  /** The `status` of a `consumer_event_records` row. */
  datatype ConsumerStatus = Started | Done | Errored

  type ConsumerKey = (string, Id)

  datatype Config = Config(consumers: map<string, seq<string>>, maxAttempts: int, backoffBase: int, backoffMax: int, claimTimeout: int)

  function NewRecord(event: Id, topic: string, destination: string, decodes: bool, now: Time): Record {
    Record(event, topic, destination, decodes, 0, Pending, now, None, None)
  }

  /** The consumers of the destination or, failing that, of the topic. */
  function ConsumersOf(cfg: Config, r: Record): seq<string> {
    var byDestination := if r.destination in cfg.consumers then cfg.consumers[r.destination] else [];
    if byDestination != [] then byDestination
    else if r.topic in cfg.consumers then cfg.consumers[r.topic] else []
  }

  // ---------------------------------------------------------------- claim

  predicate Routed(cfg: Config, r: Record) {
    cfg.consumers.Keys == {} || r.destination in cfg.consumers || r.topic in cfg.consumers
  }

  /** `Duration.Milliseconds`, which truncates toward zero. */
  function Milliseconds(d: int): int {
    if d >= 0 then d / 1_000_000 else -(-d / 1_000_000)
  }

  predicate Claimable(cfg: Config, r: Record, now: Time) {
    && ((r.status == Pending && r.availableAt <= now)
        || (r.status == Processing && r.lockedAt.Some? && r.lockedAt.value < now - Milliseconds(cfg.claimTimeout)))
    && Routed(cfg, r)
  }

  function ClaimedRow(r: Record, now: Time, worker: string): Record {
    r.(status := Processing, lockedAt := Some(now), lockedBy := Some(worker), attempts := r.attempts + 1)
  }

  /** Among the first `n` rows in creation order, the ids one claim takes; rows in `skip` are locked elsewhere. */
  function Chosen(cfg: Config, records: seq<Record>, skip: set<nat>, limit: nat, now: Time, n: nat): seq<nat>
    requires n <= |records|
  {
    if n == 0 then []
    else
      var before := Chosen(cfg, records, skip, limit, now, n - 1);
      if |before| < limit && n - 1 !in skip && Claimable(cfg, records[n - 1], now) then before + [n - 1] else before
  }

  function ClaimedRows(records: seq<Record>, chosen: seq<nat>, now: Time, worker: string): seq<Record> {
    seq(|records|, i requires 0 <= i < |records| => if i in chosen then ClaimedRow(records[i], now, worker) else records[i])
  }

  /**
   A claim takes claimable, unlocked rows, oldest first and at most `limit`: a claimable row is left
   only when it is locked elsewhere or the batch is full of older rows.
   */
  lemma {:induction false} ChosenIsOldestFirst(cfg: Config, records: seq<Record>, skip: set<nat>, limit: nat, now: Time, n: nat)
    requires n <= |records|
    ensures var c := Chosen(cfg, records, skip, limit, now, n);
            && |c| <= limit
            && (forall i, j :: 0 <= i < j < |c| ==> c[i] < c[j])
            && (forall i :: i in c ==> i < n && i !in skip && Claimable(cfg, records[i], now))
            && (forall i :: 0 <= i < n && i !in skip && Claimable(cfg, records[i], now) && i !in c ==>
                  |c| == limit && forall j :: j in c ==> j < i)
  {
    if n > 0 {
      ChosenIsOldestFirst(cfg, records, skip, limit, now, n - 1);
      var before := Chosen(cfg, records, skip, limit, now, n - 1);
      assert forall i :: 0 <= i < |before| ==> before[i] in before;
    }
  }

  // ---------------------------------------------------------------- settle

  function ProcessedRow(r: Record): Record {
    r.(status := Processed, lockedAt := None, lockedBy := None)
  }

  function FailedRow(r: Record): Record {
    r.(status := Failed, lockedAt := None, lockedBy := None)
  }

  /** `attempts` is the count read at claim time, which a stale worker may still hold. */
  function RetriedRow(cfg: Config, r: Record, attempts: nat, now: Time): Record {
    if attempts >= cfg.maxAttempts then FailedRow(r)
    else r.(status := Pending, availableAt := now + Milliseconds(Backoff(cfg, attempts)), lockedAt := None, lockedBy := None)
  }

  const INT64_LIMIT: int := 0x8000_0000_0000_0000

  /** `base * 2^(attempt-1)` before it becomes a `time.Duration`. */
  function Doubling(cfg: Config, attempt: nat): int {
    cfg.backoffBase * Pow2(if attempt == 0 then 0 else attempt - 1)
  }

  /** The float-to-int64 conversion, as amd64 performs it: values out of range become the least int64. */
  function ToInt64(x: int): int {
    if -INT64_LIMIT <= x < INT64_LIMIT then x else -INT64_LIMIT
  }

  function Backoff(cfg: Config, attempt: nat): int {
    var delay := ToInt64(Doubling(cfg, attempt));
    if delay > cfg.backoffMax then cfg.backoffMax else delay
  }

  // ---------------------------------------------------------------- consumer rows

  /** Insert on first sight, otherwise leave the row; the caller then looks at the status. */
  function StartedRows(rows: map<ConsumerKey, ConsumerStatus>, key: ConsumerKey): map<ConsumerKey, ConsumerStatus> {
    if key in rows then rows else rows[key := Started]
  }

  /** An update by key; it touches nothing when the row is missing. */
  function MarkedRows(rows: map<ConsumerKey, ConsumerStatus>, key: ConsumerKey, status: ConsumerStatus): map<ConsumerKey, ConsumerStatus> {
    if key in rows then rows[key := status] else rows
  }

  // ---------------------------------------------------------------- an uninterrupted pass

  /**
   The consumer rows after a worker walks the list from `k` alone and every statement commits;
   `answers[i]` is what consumer `i`'s Handle returns if it is called.
   */
  function WalkedRows(rows: map<ConsumerKey, ConsumerStatus>, event: Id, cs: seq<string>, answers: seq<bool>, k: nat): map<ConsumerKey, ConsumerStatus>
    requires k <= |cs| == |answers|
    decreases |cs| - k
  {
    if k == |cs| then rows
    else
      var key := (cs[k], event);
      var started := StartedRows(rows, key);
      if started[key] == Done then WalkedRows(started, event, cs, answers, k + 1)
      else if answers[k] then WalkedRows(MarkedRows(started, key, Done), event, cs, answers, k + 1)
      else MarkedRows(started, key, Errored)
  }

  /** The walk reaches the end exactly when every consumer ends up done. */
  function WalkSucceeds(rows: map<ConsumerKey, ConsumerStatus>, event: Id, cs: seq<string>, answers: seq<bool>, k: nat): bool
    requires k <= |cs| == |answers|
    decreases |cs| - k
  {
    if k == |cs| then true
    else
      var key := (cs[k], event);
      var started := StartedRows(rows, key);
      if started[key] == Done then WalkSucceeds(started, event, cs, answers, k + 1)
      else answers[k] && WalkSucceeds(MarkedRows(started, key, Done), event, cs, answers, k + 1)
  }

  lemma {:induction false} WalkKeepsDone(rows: map<ConsumerKey, ConsumerStatus>, event: Id, cs: seq<string>, answers: seq<bool>, k: nat, key: ConsumerKey)
    requires k <= |cs| == |answers| && key in rows && rows[key] == Done
    ensures key in WalkedRows(rows, event, cs, answers, k) && WalkedRows(rows, event, cs, answers, k)[key] == Done
    decreases |cs| - k
  {
    if k < |cs| {
      var at := (cs[k], event);
      var started := StartedRows(rows, at);
      if started[at] == Done { WalkKeepsDone(started, event, cs, answers, k + 1, key); }
      else if answers[k] { WalkKeepsDone(MarkedRows(started, at, Done), event, cs, answers, k + 1, key); }
    }
  }

  /** A pass succeeds exactly when it leaves every consumer row of the event done. */
  lemma {:induction false} WalkSucceedsWhenAllDone(rows: map<ConsumerKey, ConsumerStatus>, event: Id, cs: seq<string>, answers: seq<bool>, k: nat)
    requires k <= |cs| == |answers|
    ensures WalkSucceeds(rows, event, cs, answers, k) <==>
            forall i :: k <= i < |cs| ==> (cs[i], event) in WalkedRows(rows, event, cs, answers, k)
                                          && WalkedRows(rows, event, cs, answers, k)[(cs[i], event)] == Done
    decreases |cs| - k
  {
    if k < |cs| {
      var key := (cs[k], event);
      var started := StartedRows(rows, key);
      if started[key] == Done {
        WalkSucceedsWhenAllDone(started, event, cs, answers, k + 1);
        WalkKeepsDone(started, event, cs, answers, k + 1, key);
      } else if answers[k] {
        var marked := MarkedRows(started, key, Done);
        WalkSucceedsWhenAllDone(marked, event, cs, answers, k + 1);
        WalkKeepsDone(marked, event, cs, answers, k + 1, key);
      }
    }
  }

  /** The outbox row after such a pass over a row claimed at `attempts`. */
  function PassedRow(cfg: Config, r: Record, attempts: nat, succeeded: bool, now: Time): Record {
    if !r.decodes then FailedRow(r)
    else if succeeded then ProcessedRow(r)
    else RetriedRow(cfg, r, attempts, now)
  }
}
