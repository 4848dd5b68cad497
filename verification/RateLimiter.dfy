/** The guest rate limiter of `internal/httpapi/guest.go`, and its bound on any sliding window. */
module RateLimiter {
  import opened Common

  type Time = int

  /** Go's zero time, the reset of a key never seen. */
  const ZERO_TIME: Time := 0

  datatype Bucket = Bucket(reset: Time, count: int)

  datatype Config = Config(window: int, limit: int)

  datatype Call = Call(key: string, now: Time)

  const NO_BUCKET := Bucket(ZERO_TIME, 0)

  /** The bucket after one more call, admitted or not. */
  function Hit(cfg: Config, b: Bucket, now: Time): Bucket {
    if now > b.reset then Bucket(now + cfg.window, 1) else b.(count := b.count + 1)
  }

  class GuestRateLimiter {
    const cfg: Config
    var hits: map<string, Bucket>
    /** The calls so far, in the order in which they took the lock. */
    ghost var calls: seq<Call>

    function BucketFor(key: string): Bucket
      reads this
    {
      if key in hits then hits[key] else NO_BUCKET
    }

    /** The map holds what the calls so far make of every key. */
    ghost predicate Valid()
      reads this
    {
      forall key :: BucketFor(key) == BucketAfter(cfg, calls, key)
    }

    constructor (window: int, limit: int)
      ensures Valid() && cfg == Config(window, limit) && calls == []
    {
      cfg := Config(window, limit);
      hits, calls := map[], [];
    }

    method Allow(key: string, now: Time) returns (allowed: bool)
      requires Valid()
      modifies this
      ensures Valid() && calls == old(calls) + [Call(key, now)]
      ensures allowed == Admitted(cfg, calls, |calls| - 1)
      ensures forall other :: other != key ==> BucketFor(other) == old(BucketFor(other))
    {
      var bucket := if key in hits then hits[key] else NO_BUCKET;
      if now > bucket.reset { bucket := Bucket(now + cfg.window, 0); }
      bucket := bucket.(count := bucket.count + 1);
      hits := hits[key := bucket];
      calls := calls + [Call(key, now)];
      assert calls[..|calls| - 1] == old(calls) && calls[..|calls|] == calls;
      return bucket.count <= cfg.limit;
    }
  }

  // ---------------------------------------------------------------- runs

  function BucketAfter(cfg: Config, calls: seq<Call>, key: string): Bucket {
    if calls == [] then NO_BUCKET
    else
      var last, before := calls[|calls| - 1], BucketAfter(cfg, calls[..|calls| - 1], key);
      if last.key == key then Hit(cfg, before, last.now) else before
  }

  predicate Admitted(cfg: Config, calls: seq<Call>, i: nat)
    requires i < |calls|
  {
    BucketAfter(cfg, calls[..i + 1], calls[i].key).count <= cfg.limit
  }

  /** How many calls of the key in the closed interval from `lo` to `hi` are admitted. */
  function AdmittedIn(cfg: Config, calls: seq<Call>, key: string, lo: Time, hi: Time): nat {
    if calls == [] then 0
    else
      var last := calls[|calls| - 1];
      AdmittedIn(cfg, calls[..|calls| - 1], key, lo, hi)
      + if last.key == key && lo <= last.now <= hi && BucketAfter(cfg, calls, key).count <= cfg.limit then 1 else 0
  }

  /** Call `i` is one of the key's in the interval, and was answered with yes. */
  predicate SaidYes(cfg: Config, calls: seq<Call>, key: string, lo: Time, hi: Time, i: nat) {
    i < |calls| && calls[i].key == key && lo <= calls[i].now <= hi && Admitted(cfg, calls, i)
  }

  lemma SaidYesBefore(cfg: Config, calls: seq<Call>, key: string, lo: Time, hi: Time, i: nat)
    requires i < |calls| - 1
    ensures SaidYes(cfg, calls[..|calls| - 1], key, lo, hi, i) == SaidYes(cfg, calls, key, lo, hi, i)
  {
    assert calls[..|calls| - 1][..i + 1] == calls[..i + 1];
  }

  /** What the bounds count are the answers that `Allow` gave: `answers` are the places of those with yes. */
  lemma {:induction false} AdmittedAreAnswers(cfg: Config, calls: seq<Call>, key: string, lo: Time, hi: Time, answers: set<nat>)
    requires forall i: nat :: i in answers <==> SaidYes(cfg, calls, key, lo, hi, i)
    ensures AdmittedIn(cfg, calls, key, lo, hi) == |answers|
  {
    if calls == [] {
      assert answers == {};
    } else {
      var rest, n := calls[..|calls| - 1], |calls| - 1;
      forall i: nat ensures i in answers - {n} <==> SaidYes(cfg, rest, key, lo, hi, i) {
        if i < n { SaidYesBefore(cfg, calls, key, lo, hi, i); }
      }
      AdmittedAreAnswers(cfg, rest, key, lo, hi, answers - {n});
      assert calls[..n + 1] == calls;
    }
  }

  /** Calls take the lock in the order of their clock readings, all after Go's zero time. */
  ghost predicate MonotoneClock(calls: seq<Call>) {
    (forall i, j :: 0 <= i < j < |calls| ==> calls[i].now <= calls[j].now) && forall i :: 0 <= i < |calls| ==> calls[i].now > ZERO_TIME
  }

  lemma {:induction false} NothingBefore(cfg: Config, calls: seq<Call>, key: string, lo: Time, hi: Time)
    requires forall i :: 0 <= i < |calls| ==> calls[i].now < lo
    ensures AdmittedIn(cfg, calls, key, lo, hi) == 0
  {
    if calls != [] { NothingBefore(cfg, calls[..|calls| - 1], key, lo, hi); }
  }

  lemma {:induction false} CountIsPositive(cfg: Config, calls: seq<Call>, key: string)
    ensures BucketAfter(cfg, calls, key).count >= 0
    ensures MonotoneClock(calls) && BucketAfter(cfg, calls, key).count == 0 ==> BucketAfter(cfg, calls, key) == NO_BUCKET
  {
    if calls != [] { CountIsPositive(cfg, calls[..|calls| - 1], key); }
  }

  /**
   Up to the end of the interval: a bucket opened before the interval spent its first call outside it;
   one opened inside it follows at most one such bucket.
   */
  lemma {:induction false} AdmittedByBucket(cfg: Config, calls: seq<Call>, key: string, lo: Time, hi: Time)
    requires MonotoneClock(calls) && hi <= lo + cfg.window && lo > ZERO_TIME && cfg.window >= 0
    requires calls != [] ==> calls[|calls| - 1].now <= hi
    ensures var a, b := AdmittedIn(cfg, calls, key, lo, hi), BucketAfter(cfg, calls, key);
            if b.reset < lo + cfg.window then a <= Max(0, Min(b.count, cfg.limit) - 1)
            else a <= Max(0, cfg.limit - 1) + Max(0, Min(b.count, cfg.limit))
  {
    if calls != [] {
      var rest, last := calls[..|calls| - 1], calls[|calls| - 1];
      AdmittedByBucket(cfg, rest, key, lo, hi);
      CountIsPositive(cfg, rest, key);
      if last.now < lo { NothingBefore(cfg, calls, key, lo, hi); }
    }
  }

  /**
   On a non-decreasing clock, at most 2 × limit − 1 calls of a key are admitted in any closed interval of
   length window: one less than two full buckets, because the older bucket was opened by a call outside.
   */
  lemma {:induction false} WindowBound(cfg: Config, calls: seq<Call>, key: string, lo: Time, hi: Time)
    requires MonotoneClock(calls) && hi <= lo + cfg.window && cfg.window >= 0
    ensures AdmittedIn(cfg, calls, key, lo, hi) <= Max(0, 2 * cfg.limit - 1)
    decreases |calls|, lo <= ZERO_TIME
  {
    if lo <= ZERO_TIME {
      LaterStart(cfg, calls, key, lo, hi);
      WindowBound(cfg, calls, key, ZERO_TIME + 1, hi);
    } else if calls != [] {
      if calls[|calls| - 1].now > hi {
        WindowBound(cfg, calls[..|calls| - 1], key, lo, hi);
      } else {
        AdmittedByBucket(cfg, calls, key, lo, hi);
      }
    }
  }

  /** No call is made before Go's zero time. */
  lemma {:induction false} LaterStart(cfg: Config, calls: seq<Call>, key: string, lo: Time, hi: Time)
    requires MonotoneClock(calls) && lo <= ZERO_TIME
    ensures AdmittedIn(cfg, calls, key, lo, hi) == AdmittedIn(cfg, calls, key, ZERO_TIME + 1, hi)
  {
    if calls != [] { LaterStart(cfg, calls[..|calls| - 1], key, lo, hi); }
  }

  function Repeat(key: string, now: Time, n: nat): seq<Call> {
    if n == 0 then [] else Repeat(key, now, n - 1) + [Call(key, now)]
  }

  /** Opens a bucket, fills it at its last instant, then opens the next one and fills that. */
  function Burst(cfg: Config, key: string): seq<Call>
    requires cfg.limit >= 1
  {
    ([Call(key, 1)] + Repeat(key, 1 + cfg.window, cfg.limit - 1)) + [Call(key, 2 + cfg.window)] + Repeat(key, 2 + cfg.window, cfg.limit - 1)
  }

  lemma OneMore(cfg: Config, calls: seq<Call>, key: string, now: Time, lo: Time, hi: Time)
    ensures var b, all := Hit(cfg, BucketAfter(cfg, calls, key), now), calls + [Call(key, now)];
            && BucketAfter(cfg, all, key) == b
            && AdmittedIn(cfg, all, key, lo, hi) == AdmittedIn(cfg, calls, key, lo, hi) + if lo <= now <= hi && b.count <= cfg.limit then 1 else 0
  {
    var all := calls + [Call(key, now)];
    assert all[..|all| - 1] == calls;
  }

  /** Calls that an open bucket has room for are admitted. */
  lemma {:induction false} RoomIsUsed(cfg: Config, calls: seq<Call>, key: string, now: Time, n: nat, lo: Time, hi: Time)
    requires now <= BucketAfter(cfg, calls, key).reset && lo <= now <= hi && BucketAfter(cfg, calls, key).count + n <= cfg.limit
    ensures var b := BucketAfter(cfg, calls, key); BucketAfter(cfg, calls + Repeat(key, now, n), key) == b.(count := b.count + n)
    ensures AdmittedIn(cfg, calls + Repeat(key, now, n), key, lo, hi) == AdmittedIn(cfg, calls, key, lo, hi) + n
  {
    if n == 0 {
      assert calls + Repeat(key, now, n) == calls;
    } else {
      RoomIsUsed(cfg, calls, key, now, n - 1, lo, hi);
      OneMore(cfg, calls + Repeat(key, now, n - 1), key, now, lo, hi);
      assert calls + Repeat(key, now, n) == calls + Repeat(key, now, n - 1) + [Call(key, now)];
    }
  }

  lemma {:induction false} RepeatAt(key: string, now: Time, n: nat)
    ensures |Repeat(key, now, n)| == n && forall i :: 0 <= i < n ==> Repeat(key, now, n)[i] == Call(key, now)
  {
    if n > 0 { RepeatAt(key, now, n - 1); }
  }

  lemma BurstIsMonotone(cfg: Config, key: string)
    requires cfg.limit >= 1 && cfg.window >= 1
    ensures MonotoneClock(Burst(cfg, key))
  {
    RepeatAt(key, 1 + cfg.window, cfg.limit - 1);
    RepeatAt(key, 2 + cfg.window, cfg.limit - 1);
  }

  /** The bound is reached for every limit and every window: the interval holds the older bucket but for its first call, and all of the newer one. */
  lemma WindowBoundIsTight(cfg: Config, key: string)
    requires cfg.limit >= 1 && cfg.window >= 1
    ensures MonotoneClock(Burst(cfg, key))
    ensures AdmittedIn(cfg, Burst(cfg, key), key, 1 + cfg.window, 1 + 2 * cfg.window) == 2 * cfg.limit - 1
  {
    BurstIsMonotone(cfg, key);
    var w, n, lo, hi := cfg.window, cfg.limit - 1, 1 + cfg.window, 1 + 2 * cfg.window;
    OneMore(cfg, [], key, 1, lo, hi);
    assert [] + [Call(key, 1)] == [Call(key, 1)];
    RoomIsUsed(cfg, [Call(key, 1)], key, 1 + w, n, lo, hi);
    var filled := [Call(key, 1)] + Repeat(key, 1 + w, n);
    OneMore(cfg, filled, key, 2 + w, lo, hi);
    RoomIsUsed(cfg, filled + [Call(key, 2 + w)], key, 2 + w, n, lo, hi);
  }

  // ---------------------------------------------------------------- one bucket

  /** Call `i` opens a new bucket for its key. */
  predicate Opens(cfg: Config, calls: seq<Call>, i: nat)
    requires i < |calls|
  {
    calls[i].now > BucketAfter(cfg, calls[..i], calls[i].key).reset
  }

  function AdmittedFrom(cfg: Config, calls: seq<Call>, key: string, first: nat): nat {
    if |calls| <= first then 0
    else
      AdmittedFrom(cfg, calls[..|calls| - 1], key, first)
      + if calls[|calls| - 1].key == key && BucketAfter(cfg, calls, key).count <= cfg.limit then 1 else 0
  }

  /** From the call that opens a bucket to the next one that does, at most limit calls are admitted. */
  lemma {:induction false} BucketBound(cfg: Config, calls: seq<Call>, key: string, first: nat)
    requires forall i :: first < i < |calls| && calls[i].key == key ==> !Opens(cfg, calls, i)
    requires first < |calls| && calls[first].key == key && Opens(cfg, calls, first)
    ensures AdmittedFrom(cfg, calls, key, first) <= Max(0, cfg.limit)
    ensures AdmittedFrom(cfg, calls, key, first) <= BucketAfter(cfg, calls, key).count
  {
    var rest := calls[..|calls| - 1];
    if |rest| > first {
      forall i | first < i < |rest| && rest[i].key == key ensures !Opens(cfg, rest, i) {
        assert !Opens(cfg, calls, i) && rest[..i] == calls[..i];
      }
      assert rest[..first] == calls[..first];
      BucketBound(cfg, rest, key, first);
      if calls[|rest|].key == key { assert !Opens(cfg, calls, |rest|); }
    }
  }

  // ---------------------------------------------------------------- other keys

  function OnlyKey(calls: seq<Call>, key: string): seq<Call> {
    if calls == [] then []
    else OnlyKey(calls[..|calls| - 1], key) + if calls[|calls| - 1].key == key then [calls[|calls| - 1]] else []
  }

  /** A key's answers are those it would get alone: calls for other keys change nothing. */
  lemma {:induction false} OtherKeysDoNotMatter(cfg: Config, calls: seq<Call>, key: string, lo: Time, hi: Time)
    ensures BucketAfter(cfg, OnlyKey(calls, key), key) == BucketAfter(cfg, calls, key)
    ensures AdmittedIn(cfg, OnlyKey(calls, key), key, lo, hi) == AdmittedIn(cfg, calls, key, lo, hi)
  {
    if calls != [] {
      var rest, only := calls[..|calls| - 1], OnlyKey(calls, key);
      OtherKeysDoNotMatter(cfg, rest, key, lo, hi);
      if calls[|calls| - 1].key == key { assert only[..|only| - 1] == OnlyKey(rest, key); }
      else { assert only == OnlyKey(rest, key); }
    }
  }
}
