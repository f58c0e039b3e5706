/**
 * The token bucket guarding the upstream API: it refills at `fillRate` tokens per second up to
 * `capacity`, and each acquisition takes one token or, when less than one is left, computes how
 * long the caller has to sleep for the missing fraction. Clock readings are passed in as seconds
 * and the sleep is returned instead of performed.
 */
module RateLimiting {

  /** The mutable part of the limiter: the tokens left and the clock reading of the last acquisition. */
  datatype Bucket = Bucket(tokens: real, lastCheck: real)

  /** What one acquisition leaves behind and how long it makes the caller sleep. */
  datatype Grant = Grant(after: Bucket, wait: real)

  /** The limiter's invariant: between zero and `capacity` tokens. */
  predicate InBounds(capacity: real, b: Bucket) {
    0.0 <= b.tokens <= capacity
  }

  /** The tokens after refilling for the time elapsed since the last check, capped at `capacity`. */
  function Refill(capacity: real, fillRate: real, b: Bucket, now: real): (r: real)
    ensures r <= capacity && r <= b.tokens + (now - b.lastCheck) * fillRate
    ensures r == capacity || r == b.tokens + (now - b.lastCheck) * fillRate
  {
    var t := b.tokens + (now - b.lastCheck) * fillRate;
    if t > capacity then capacity else t
  }

  /** One acquisition at clock reading `now`. */
  function Acquire(capacity: real, fillRate: real, b: Bucket, now: real): (g: Grant)
    requires fillRate > 0.0
    ensures g.after.lastCheck == now
  {
    var t := Refill(capacity, fillRate, b, now);
    if t < 1.0 then Grant(Bucket(0.0, now), (1.0 - t) / fillRate)
    else Grant(Bucket(t - 1.0, now), 0.0)
  }

  /** With at least one token after the refill, exactly one is taken and the caller does not wait. */
  lemma AcquireImmediate(capacity: real, fillRate: real, b: Bucket, now: real)
    requires fillRate > 0.0 && Refill(capacity, fillRate, b, now) >= 1.0
    ensures Acquire(capacity, fillRate, b, now).wait == 0.0
    ensures Acquire(capacity, fillRate, b, now).after.tokens == Refill(capacity, fillRate, b, now) - 1.0
  {
  }

  /**
   * With less than one token after the refill, the caller waits for the missing fraction of a token,
   * at most one token's worth of time, and the bucket is left empty.
   */
  lemma AcquireWaits(capacity: real, fillRate: real, b: Bucket, now: real)
    requires fillRate > 0.0 && b.tokens >= 0.0 && now >= b.lastCheck
    requires Refill(capacity, fillRate, b, now) < 1.0
    requires capacity >= 0.0
    ensures var g := Acquire(capacity, fillRate, b, now);
      g.after.tokens == 0.0 && 0.0 < g.wait <= 1.0 / fillRate
      && g.wait * fillRate == 1.0 - Refill(capacity, fillRate, b, now)
  {
    var t := Refill(capacity, fillRate, b, now);
    ElapsedRefill(now - b.lastCheck, fillRate);
    assert (now - b.lastCheck) * fillRate >= 0.0;
    WaitBounds(t, fillRate);
  }

  lemma ElapsedRefill(elapsed: real, fillRate: real)
    requires elapsed >= 0.0 && fillRate > 0.0
    ensures elapsed * fillRate >= 0.0
  {
  }

  lemma WaitBounds(t: real, fillRate: real)
    requires fillRate > 0.0 && 0.0 <= t < 1.0
    ensures 0.0 < (1.0 - t) / fillRate <= 1.0 / fillRate
    ensures (1.0 - t) / fillRate * fillRate == 1.0 - t
  {
    var w := (1.0 - t) / fillRate;
    assert w * fillRate == 1.0 - t;
    var u := 1.0 / fillRate;
    assert u * fillRate == 1.0;
    assert (u - w) * fillRate == t;
  }

  /** The caller waits exactly when less than one token is left after the refill. */
  lemma AcquireWaitIff(capacity: real, fillRate: real, b: Bucket, now: real)
    requires fillRate > 0.0 && b.tokens >= 0.0 && now >= b.lastCheck && capacity >= 0.0
    ensures Acquire(capacity, fillRate, b, now).wait > 0.0 <==> Refill(capacity, fillRate, b, now) < 1.0
    ensures Acquire(capacity, fillRate, b, now).wait >= 0.0
  {
    if Refill(capacity, fillRate, b, now) < 1.0 {
      AcquireWaits(capacity, fillRate, b, now);
    }
  }

  /** Every acquisition keeps between zero and `capacity` tokens, given a clock that does not go back. */
  lemma AcquireInBounds(capacity: real, fillRate: real, b: Bucket, now: real)
    requires fillRate > 0.0 && InBounds(capacity, b) && now >= b.lastCheck
    ensures InBounds(capacity, Acquire(capacity, fillRate, b, now).after)
  {
    ElapsedRefill(now - b.lastCheck, fillRate);
    assert (now - b.lastCheck) * fillRate >= 0.0;
  }

  /**
   * Token accounting for one acquisition: the tokens left are at most the tokens before, plus what
   * the elapsed time and the wait refill, minus the one granted.
   */
  lemma AcquireAccounting(capacity: real, fillRate: real, b: Bucket, now: real)
    requires fillRate > 0.0 && b.tokens >= 0.0 && now >= b.lastCheck && capacity >= 0.0
    ensures var g := Acquire(capacity, fillRate, b, now);
      g.after.tokens <= b.tokens + (g.after.lastCheck - b.lastCheck) * fillRate + g.wait * fillRate - 1.0
  {
    if Refill(capacity, fillRate, b, now) < 1.0 {
      AcquireWaits(capacity, fillRate, b, now);
    }
  }

  predicate NonDecreasing(times: seq<real>) {
    forall i, j :: 0 <= i < j < |times| ==> times[i] <= times[j]
  }

  /** The bucket after the acquisitions recorded in `gs`, starting from `b`. */
  function Final(b: Bucket, gs: seq<Grant>): Bucket {
    if gs == [] then b else gs[|gs| - 1].after
  }

  /** `gs` records acquisitions at the clock readings `times`, one after the other, starting from `b`. */
  predicate IsTrace(capacity: real, fillRate: real, b: Bucket, times: seq<real>, gs: seq<Grant>)
    requires fillRate > 0.0
    decreases |gs|
  {
    |gs| == |times| &&
    (gs != [] ==>
       IsTrace(capacity, fillRate, b, times[..|gs| - 1], gs[..|gs| - 1]) &&
       gs[|gs| - 1] == Acquire(capacity, fillRate, Final(b, gs[..|gs| - 1]), times[|gs| - 1]))
  }

  /** The number of recorded acquisitions, each of which grants one permit. */
  function Granted(gs: seq<Grant>): real {
    if gs == [] then 0.0 else Granted(gs[..|gs| - 1]) + 1.0
  }

  lemma {:induction false} GrantedCount(gs: seq<Grant>)
    ensures Granted(gs) == |gs| as real
    decreases |gs|
  {
    if gs != [] {
      GrantedCount(gs[..|gs| - 1]);
    }
  }

  /** The total time the callers of the recorded acquisitions slept. */
  function TotalWait(gs: seq<Grant>): real {
    if gs == [] then 0.0 else TotalWait(gs[..|gs| - 1]) + gs[|gs| - 1].wait
  }

  /**
   * Acquisitions at clock readings that do not go back keep the bucket within bounds, never wait a
   * negative time, and record the clock reading of the latest one.
   */
  lemma {:induction false} TraceInBounds(capacity: real, fillRate: real, b: Bucket, times: seq<real>, gs: seq<Grant>)
    requires fillRate > 0.0 && InBounds(capacity, b) && IsTrace(capacity, fillRate, b, times, gs)
    requires NonDecreasing(times) && (times != [] ==> times[0] >= b.lastCheck)
    ensures InBounds(capacity, Final(b, gs)) && TotalWait(gs) >= 0.0
    ensures gs != [] ==> Final(b, gs).lastCheck == times[|times| - 1]
    decreases |gs|
  {
    if gs != [] {
      var n := |gs|;
      var pre, tpre := gs[..n - 1], times[..n - 1];
      TraceInBounds(capacity, fillRate, b, tpre, pre);
      var before := Final(b, pre);
      assert n > 1 ==> tpre[|tpre| - 1] == times[n - 2];
      AcquireInBounds(capacity, fillRate, before, times[n - 1]);
      AcquireWaitIff(capacity, fillRate, before, times[n - 1]);
    }
  }

  /**
   * Every recorded acquisition obeys the token accounting of `AcquireAccounting`: it leaves at most
   * the tokens before it, plus what its elapsed time and its wait refill, minus the one granted.
   */
  predicate Accounted(fillRate: real, b: Bucket, gs: seq<Grant>)
    decreases |gs|
  {
    gs != [] ==>
      var before := Final(b, gs[..|gs| - 1]);
      var g := gs[|gs| - 1];
      Accounted(fillRate, b, gs[..|gs| - 1])
      && g.after.tokens <= before.tokens + (g.after.lastCheck - before.lastCheck) * fillRate + g.wait * fillRate - 1.0
  }

  /** Real acquisitions over a clock that does not go back obey the accounting. */
  lemma {:induction false} TraceAccounted(capacity: real, fillRate: real, b: Bucket, times: seq<real>, gs: seq<Grant>)
    requires fillRate > 0.0 && InBounds(capacity, b) && IsTrace(capacity, fillRate, b, times, gs)
    requires NonDecreasing(times) && (times != [] ==> times[0] >= b.lastCheck)
    ensures Accounted(fillRate, b, gs)
    decreases |gs|
  {
    if gs != [] {
      var n := |gs|;
      var pre, tpre := gs[..n - 1], times[..n - 1];
      TraceAccounted(capacity, fillRate, b, tpre, pre);
      TraceInBounds(capacity, fillRate, b, tpre, pre);
      assert n > 1 ==> tpre[|tpre| - 1] == times[n - 2];
      AcquireAccounting(capacity, fillRate, Final(b, pre), times[n - 1]);
    }
  }

  /** Summing the accounting over the recorded acquisitions. */
  lemma {:induction false} AccountedThroughput(fillRate: real, b: Bucket, gs: seq<Grant>)
    requires Accounted(fillRate, b, gs)
    ensures Granted(gs) <= b.tokens - Final(b, gs).tokens
      + (Final(b, gs).lastCheck - b.lastCheck) * fillRate + TotalWait(gs) * fillRate
    decreases |gs|
  {
    if gs == [] {
      assert 0.0 * fillRate == 0.0;
    } else {
      var pre := gs[..|gs| - 1];
      var g := gs[|gs| - 1];
      AccountedThroughput(fillRate, b, pre);
      ThroughputStep(Granted(gs), Granted(pre), b.tokens, Final(b, pre).tokens,
        g.after.tokens, Final(b, gs).tokens,
        b.lastCheck, Final(b, pre).lastCheck, g.after.lastCheck, Final(b, gs).lastCheck,
        TotalWait(pre), g.wait, TotalWait(gs), fillRate);
    }
  }

  /**
   * Token accounting over a trace: acquisitions at clock readings that do not go back, starting from
   * a bucket within bounds, number at most the tokens used up plus the refill credited over the clock
   * span plus the refill credited for every wait. A wait's time is also part of the clock span, so
   * slept time is credited twice (`AcquireCreditsWaitTwice`); only without waits is this a bound of
   * `tokens + fillRate * elapsed`.
   */
  lemma TraceThroughput(capacity: real, fillRate: real, b: Bucket, times: seq<real>, gs: seq<Grant>)
    requires fillRate > 0.0 && InBounds(capacity, b) && IsTrace(capacity, fillRate, b, times, gs)
    requires NonDecreasing(times) && (times != [] ==> times[0] >= b.lastCheck)
    ensures |gs| as real <= b.tokens - Final(b, gs).tokens
      + (Final(b, gs).lastCheck - b.lastCheck) * fillRate + TotalWait(gs) * fillRate
  {
    TraceAccounted(capacity, fillRate, b, times, gs);
    AccountedThroughput(fillRate, b, gs);
    GrantedCount(gs);
  }

  /**
   * One step of the throughput induction, as plain arithmetic: the bound for the first `m`
   * acquisitions (ending with `mid` tokens at `t0` after waiting `w0`) and the accounting of the
   * next one (ending with `after` tokens at `last` after waiting `w1`) give the bound for `m + 1`.
   */
  lemma ThroughputStep(n: real, m: real, before: real, mid: real, after: real, after': real,
                       start: real, t0: real, last: real, last': real,
                       w0: real, w1: real, w: real, fillRate: real)
    requires m <= before - mid + (t0 - start) * fillRate + w0 * fillRate
    requires after <= mid + (last - t0) * fillRate + w1 * fillRate - 1.0
    requires n == m + 1.0 && after' == after && last' == last && w == w0 + w1
    ensures n <= before - after' + (last' - start) * fillRate + w * fillRate
  {
    assert (last - t0) * fillRate + (t0 - start) * fillRate == (last - start) * fillRate;
    assert w0 * fillRate + w1 * fillRate == (w0 + w1) * fillRate;
  }

  /**
   * As written, a caller that has to wait sets the last check to the moment it started waiting and
   * empties the bucket, so the next acquisition refills the tokens for the time slept once more.
   * With one permit per second from an empty bucket, acquisitions made as soon as the previous
   * caller finished sleeping complete two at a time: four permits by second 2, where the bound
   * that `CorrectedRateBound` proves for the intended limiter allows three, whatever the start time.
   */
  lemma AcquireCreditsWaitTwice(t: real)
    ensures var b := Bucket(0.0, t);
      var g1 := Acquire(1.0, 1.0, b, t);
      var g2 := Acquire(1.0, 1.0, g1.after, t + 1.0);
      var g3 := Acquire(1.0, 1.0, g2.after, t + 1.0);
      var g4 := Acquire(1.0, 1.0, g3.after, t + 2.0);
      // each call starts when the previous caller finished sleeping
      && t + g1.wait == t + 1.0 && t + 1.0 + g2.wait == t + 1.0
      && t + 1.0 + g3.wait == t + 2.0 && t + 2.0 + g4.wait == t + 2.0
      && IsTrace(1.0, 1.0, b, [t, t + 1.0, t + 1.0, t + 2.0], [g1, g2, g3, g4])
      // the bound `CorrectedRateBound` gives with capacity 1 and rate 1 fails for these four permits
      && !(|[g1, g2, g3, g4]| as real <= 1.0 + (Final(b, [g1, g2, g3, g4]).lastCheck - b.lastCheck) * 1.0)
  {
    var b := Bucket(0.0, t);
    var g1 := Acquire(1.0, 1.0, b, t);
    var g2 := Acquire(1.0, 1.0, g1.after, t + 1.0);
    var g3 := Acquire(1.0, 1.0, g2.after, t + 1.0);
    var g4 := Acquire(1.0, 1.0, g3.after, t + 2.0);
    assert g1 == Grant(Bucket(0.0, t), 1.0);
    assert g2 == Grant(Bucket(0.0, t + 1.0), 0.0);
    assert g3 == Grant(Bucket(0.0, t + 1.0), 1.0);
    assert g4 == Grant(Bucket(0.0, t + 2.0), 0.0);
    var times, gs := [t, t + 1.0, t + 1.0, t + 2.0], [g1, g2, g3, g4];
    assert IsTrace(1.0, 1.0, b, times[..0], gs[..0]);
    assert gs[..1][..0] == gs[..0] && times[..1][..0] == times[..0];
    assert IsTrace(1.0, 1.0, b, times[..1], gs[..1]);
    assert gs[..2][..1] == gs[..1] && times[..2][..1] == times[..1] && Final(b, gs[..1]) == g1.after;
    assert IsTrace(1.0, 1.0, b, times[..2], gs[..2]);
    assert gs[..3][..2] == gs[..2] && times[..3][..2] == times[..2] && Final(b, gs[..2]) == g2.after;
    assert IsTrace(1.0, 1.0, b, times[..3], gs[..3]);
    assert gs[..3] == gs[..|gs| - 1] && times[..3] == times[..|gs| - 1] && Final(b, gs[..3]) == g3.after;
  }

  /**
   * The acquisition the design calls for: a caller that has to wait is charged for the sleep, so the
   * last check moves to the end of the sleep and no refill is credited twice.
   */
  function AcquireCorrected(capacity: real, fillRate: real, b: Bucket, now: real): (g: Grant)
    requires fillRate > 0.0
    ensures g.after.lastCheck == now + g.wait
  {
    var t := Refill(capacity, fillRate, b, now);
    if t < 1.0 then Grant(Bucket(0.0, now + (1.0 - t) / fillRate), (1.0 - t) / fillRate)
    else Grant(Bucket(t - 1.0, now), 0.0)
  }

  /**
   * One corrected acquisition keeps the bucket within bounds, never waits a negative time, and
   * leaves at most the tokens before it plus the refill up to its completion, minus the one granted.
   */
  lemma CorrectedAccounting(capacity: real, fillRate: real, b: Bucket, now: real)
    requires fillRate > 0.0 && InBounds(capacity, b) && now >= b.lastCheck
    ensures var g := AcquireCorrected(capacity, fillRate, b, now);
      && InBounds(capacity, g.after) && g.wait >= 0.0
      && g.after.tokens <= b.tokens + (g.after.lastCheck - b.lastCheck) * fillRate - 1.0
  {
    AcquireInBounds(capacity, fillRate, b, now);
    var t := Refill(capacity, fillRate, b, now);
    if t < 1.0 {
      AcquireWaits(capacity, fillRate, b, now);
      var w := (1.0 - t) / fillRate;
      assert (now + w - b.lastCheck) * fillRate == (now - b.lastCheck) * fillRate + w * fillRate;
    }
  }

  /**
   * `gs` records corrected acquisitions at the clock readings `times`, each made once the previous
   * caller has finished sleeping (the limiter's lock is held through the sleep).
   */
  predicate IsCorrectedTrace(capacity: real, fillRate: real, b: Bucket, times: seq<real>, gs: seq<Grant>)
    requires fillRate > 0.0
    decreases |gs|
  {
    |gs| == |times| &&
    (gs != [] ==>
       var before := Final(b, gs[..|gs| - 1]);
       IsCorrectedTrace(capacity, fillRate, b, times[..|gs| - 1], gs[..|gs| - 1]) &&
       times[|gs| - 1] >= before.lastCheck &&
       gs[|gs| - 1] == AcquireCorrected(capacity, fillRate, before, times[|gs| - 1]))
  }

  /** Corrected acquisitions at clock readings no earlier than the last check keep the bucket within bounds. */
  lemma {:induction false} CorrectedTraceInBounds(capacity: real, fillRate: real, b: Bucket, times: seq<real>, gs: seq<Grant>)
    requires fillRate > 0.0 && InBounds(capacity, b) && IsCorrectedTrace(capacity, fillRate, b, times, gs)
    ensures InBounds(capacity, Final(b, gs))
    decreases |gs|
  {
    if gs != [] {
      var n := |gs|;
      CorrectedTraceInBounds(capacity, fillRate, b, times[..n - 1], gs[..n - 1]);
      CorrectedAccounting(capacity, fillRate, Final(b, gs[..n - 1]), times[n - 1]);
    }
  }

  /**
   * Every recorded acquisition pays for its permit: it leaves at most the tokens before it, plus the
   * refill up to its completion, minus the one granted.
   */
  predicate PaidFor(fillRate: real, b: Bucket, gs: seq<Grant>)
    decreases |gs|
  {
    gs != [] ==>
      var before := Final(b, gs[..|gs| - 1]);
      var g := gs[|gs| - 1];
      PaidFor(fillRate, b, gs[..|gs| - 1])
      && g.after.tokens <= before.tokens + (g.after.lastCheck - before.lastCheck) * fillRate - 1.0
  }

  /** Corrected acquisitions pay for their permits. */
  lemma {:induction false} CorrectedTracePaidFor(capacity: real, fillRate: real, b: Bucket, times: seq<real>, gs: seq<Grant>)
    requires fillRate > 0.0 && InBounds(capacity, b) && IsCorrectedTrace(capacity, fillRate, b, times, gs)
    ensures PaidFor(fillRate, b, gs)
    decreases |gs|
  {
    if gs != [] {
      var n := |gs|;
      var pre, tpre := gs[..n - 1], times[..n - 1];
      CorrectedTracePaidFor(capacity, fillRate, b, tpre, pre);
      CorrectedTraceInBounds(capacity, fillRate, b, tpre, pre);
      PaidForStep(capacity, fillRate, b, gs, times[n - 1]);
    }
  }

  /** A corrected acquisition after acquisitions that paid for their permits pays for its own. */
  lemma PaidForStep(capacity: real, fillRate: real, b: Bucket, gs: seq<Grant>, now: real)
    requires fillRate > 0.0 && gs != []
    requires var before := Final(b, gs[..|gs| - 1]);
      && PaidFor(fillRate, b, gs[..|gs| - 1]) && InBounds(capacity, before) && now >= before.lastCheck
      && gs[|gs| - 1] == AcquireCorrected(capacity, fillRate, before, now)
    ensures PaidFor(fillRate, b, gs)
  {
    CorrectedAccounting(capacity, fillRate, Final(b, gs[..|gs| - 1]), now);
  }

  /** Summing the payments over the recorded acquisitions. */
  lemma {:induction false} PaidForThroughput(fillRate: real, b: Bucket, gs: seq<Grant>)
    requires PaidFor(fillRate, b, gs)
    ensures Granted(gs) <= b.tokens - Final(b, gs).tokens + (Final(b, gs).lastCheck - b.lastCheck) * fillRate
    decreases |gs|
  {
    if gs == [] {
      assert (b.lastCheck - b.lastCheck) * fillRate == 0.0;
    } else {
      var pre := gs[..|gs| - 1];
      var g := gs[|gs| - 1];
      PaidForThroughput(fillRate, b, pre);
      CorrectedStep(Granted(gs), Granted(pre), b.tokens, Final(b, pre).tokens, g.after.tokens,
        b.lastCheck, Final(b, pre).lastCheck, g.after.lastCheck, fillRate);
    }
  }

  /** Token accounting over a corrected trace: no refill is credited twice. */
  lemma CorrectedThroughput(capacity: real, fillRate: real, b: Bucket, times: seq<real>, gs: seq<Grant>)
    requires fillRate > 0.0 && InBounds(capacity, b) && IsCorrectedTrace(capacity, fillRate, b, times, gs)
    ensures InBounds(capacity, Final(b, gs))
    ensures |gs| as real <= b.tokens - Final(b, gs).tokens + (Final(b, gs).lastCheck - b.lastCheck) * fillRate
  {
    CorrectedTraceInBounds(capacity, fillRate, b, times, gs);
    CorrectedTracePaidFor(capacity, fillRate, b, times, gs);
    PaidForThroughput(fillRate, b, gs);
    GrantedCount(gs);
  }

  /** One step of the corrected throughput induction, as plain arithmetic. */
  lemma CorrectedStep(n: real, m: real, before: real, mid: real, after: real,
                      start: real, t0: real, last: real, fillRate: real)
    requires m <= before - mid + (t0 - start) * fillRate
    requires after <= mid + (last - t0) * fillRate - 1.0
    requires n == m + 1.0
    ensures n <= before - after + (last - start) * fillRate
  {
    assert (last - t0) * fillRate + (t0 - start) * fillRate == (last - start) * fillRate;
  }

  /**
   * The rate the design promises, for the corrected limiter: from any bucket within bounds, the
   * permits granted up to the completion of the last one number at most `capacity` plus `fillRate`
   * times the time since the bucket's last check.
   */
  lemma CorrectedRateBound(capacity: real, fillRate: real, b: Bucket, times: seq<real>, gs: seq<Grant>)
    requires fillRate > 0.0 && InBounds(capacity, b) && IsCorrectedTrace(capacity, fillRate, b, times, gs)
    ensures gs != [] ==> Final(b, gs).lastCheck == times[|gs| - 1] + gs[|gs| - 1].wait
    ensures |gs| as real <= capacity + (Final(b, gs).lastCheck - b.lastCheck) * fillRate
  {
    CorrectedThroughput(capacity, fillRate, b, times, gs);
  }

  /** `RateLimiter`: a token bucket whose rate is also its capacity. */
  class RateLimiter {
    const capacity: real
    const fillRate: real
    var tokens: real
    var lastCheck: real

    ghost predicate Valid()
      reads this
    {
      capacity > 0.0 && fillRate == capacity && InBounds(capacity, Bucket(tokens, lastCheck))
    }

    function State(): Bucket
      reads this
    {
      Bucket(tokens, lastCheck)
    }

    /** A full bucket of `maxCallsPerSecond` tokens refilling at `maxCallsPerSecond` tokens per second. */
    constructor (maxCallsPerSecond: real, now: real)
      requires maxCallsPerSecond > 0.0
      ensures Valid()
      ensures capacity == maxCallsPerSecond && fillRate == maxCallsPerSecond
      ensures tokens == maxCallsPerSecond && lastCheck == now
    {
      capacity := maxCallsPerSecond;
      fillRate := maxCallsPerSecond;
      tokens := maxCallsPerSecond;
      lastCheck := now;
    }

    /** `__enter__` at clock reading `now`: refill, cap, then take a token or return the sleep. */
    method Enter(now: real) returns (wait: real)
      requires Valid() && now >= lastCheck
      modifies this
      ensures Valid()
      ensures Grant(State(), wait) == Acquire(capacity, fillRate, old(State()), now)
    {
      AcquireInBounds(capacity, fillRate, State(), now);
      var elapsed := now - lastCheck;
      lastCheck := now;
      tokens := tokens + elapsed * fillRate;
      if tokens > capacity {
        tokens := capacity;
      }
      if tokens < 1.0 {
        wait := (1.0 - tokens) / fillRate;
        tokens := 0.0;
      } else {
        tokens := tokens - 1.0;
        wait := 0.0;
      }
    }

    /** `__exit__` changes nothing. */
    method Exit()
      ensures unchanged(this)
    {
    }
  }
}
