/**
 * `BinanceIngestionClient.ingest_data`: one quota-bounded collection step for one symbol. It reads
 * the symbol's progress, stops at the quota, otherwise takes a rate-limiter permit, asks the
 * upstream API for the ticker price, stores the raw response stamped with the local capture time
 * and counts the point. Every error inside the permitted section is logged and swallowed; an error
 * reading the progress, which happens before that section, propagates to the caller.
 *
 * The upstream response, the clock readings and storage failures are parameters of the step.
 */
module Ingestion {
  import opened Common
  import opened RawStore
  import opened ProgressStore
  import opened RateLimiting

  /** How one call ends. */
  datatype Step =
    | ReadFailed(error: Error)   // reading the progress raised: the error propagates, nothing happened
    | QuotaReached               // progress already at the quota: nothing was requested
    | FetchFailed                // the upstream request raised
    | InsertFailed(error: Error) // the raw insert raised; nothing was counted
    | UpdateFailed(error: Error) // the raw row is stored but the progress update raised
    | Collected(points: nat)     // the point is stored and counted; `points` is the new progress

  /** What the environment does during one call. */
  datatype Attempt = Attempt(
    readFails: bool,           // reading the progress raises (outside the guarded section)
    clock: real,               // the monotonic clock reading when the permit is requested
    captureTime: Timestamp,    // the local UTC time taken right after the response
    response: Option<Payload>, // the ticker response, or `None` when the request raised
    rawFails: bool,            // the raw insert's commit fails
    stateFails: bool)          // the progress update's commit fails

  /** The state the step reads and writes: progress, the raw table and the rate limiter's bucket. */
  datatype Stores = Stores(points: map<Symbol, nat>, raw: seq<RawRow>, bucket: Bucket)

  /** The configuration of the client: the per-symbol quota and the rate limiter's rate and capacity. */
  datatype Config = Config(dataPoints: nat, rate: real)

  datatype Ingested = Ingested(after: Stores, step: Step, wait: real)

  /** One call of `ingest_data(s)`. */
  function Ingest(cfg: Config, st: Stores, s: Symbol, at: Attempt): Ingested
    requires cfg.rate > 0.0
  {
    if at.readFails then Ingested(st, ReadFailed(StorageFault), 0.0)
    else if CollectedPoints(st.points, s) >= cfg.dataPoints then Ingested(st, QuotaReached, 0.0)
    else
      var g := Acquire(cfg.rate, cfg.rate, st.bucket, at.clock);
      var permitted := st.(bucket := g.after);
      match at.response
      case None => Ingested(permitted, FetchFailed, g.wait)
      case Some(data) =>
        match InsertRaw(st.raw, RawRow(s, data, at.captureTime))
        case Err(e) => Ingested(permitted, InsertFailed(e), g.wait)
        case Ok(raw) =>
          if at.rawFails then Ingested(permitted, InsertFailed(StorageFault), g.wait)
          else if at.stateFails then Ingested(permitted.(raw := raw), UpdateFailed(StorageFault), g.wait)
          else Ingested(Stores(Bumped(st.points, s), raw, g.after), Collected(CollectedPoints(st.points, s) + 1), g.wait)
  }

  /**
   * A failing progress read is outside the guarded section: the call ends with that error, having
   * requested nothing, stored nothing, counted nothing and taken no permit.
   */
  lemma IngestReadFails(cfg: Config, st: Stores, s: Symbol, at: Attempt)
    requires cfg.rate > 0.0 && at.readFails
    ensures Ingest(cfg, st, s, at) == Ingested(st, ReadFailed(StorageFault), 0.0)
  {
  }

  /** At or over the quota a call requests nothing, stores nothing, counts nothing and takes no permit. */
  lemma IngestAtQuota(cfg: Config, st: Stores, s: Symbol, at: Attempt)
    requires cfg.rate > 0.0 && !at.readFails && CollectedPoints(st.points, s) >= cfg.dataPoints
    ensures Ingest(cfg, st, s, at) == Ingested(st, QuotaReached, 0.0)
  {
  }

  /** Below the quota a call takes exactly one permit, whatever happens after. */
  lemma IngestTakesOnePermit(cfg: Config, st: Stores, s: Symbol, at: Attempt)
    requires cfg.rate > 0.0 && !at.readFails && CollectedPoints(st.points, s) < cfg.dataPoints
    ensures var r := Ingest(cfg, st, s, at);
      var g := Acquire(cfg.rate, cfg.rate, st.bucket, at.clock);
      r.after.bucket == g.after && r.wait == g.wait && !r.step.QuotaReached? && !r.step.ReadFailed?
  {
  }

  /**
   * The raw table either stays as it was or gains exactly the row of `s` holding the response,
   * stamped with the capture time; it gains it exactly when the request and the insert succeed.
   */
  lemma IngestRawRow(cfg: Config, st: Stores, s: Symbol, at: Attempt)
    requires cfg.rate > 0.0
    ensures var r := Ingest(cfg, st, s, at);
      (r.after.raw == st.raw <==> r.step.ReadFailed? || r.step.QuotaReached? || r.step.FetchFailed? || r.step.InsertFailed?)
      && (r.after.raw != st.raw ==>
            at.response.Some? && r.after.raw == st.raw + [RawRow(s, at.response.value, at.captureTime)])
  {
  }

  /**
   * Progress rises by one exactly when the point is collected, and otherwise stays; other symbols'
   * progress never changes. So a call never takes progress past the quota.
   */
  lemma IngestProgress(cfg: Config, st: Stores, s: Symbol, at: Attempt)
    requires cfg.rate > 0.0
    ensures var r := Ingest(cfg, st, s, at);
      (r.step.Collected? ==>
         CollectedPoints(r.after.points, s) == CollectedPoints(st.points, s) + 1
         && r.step.points == CollectedPoints(r.after.points, s))
      && (!r.step.Collected? ==> r.after.points == st.points)
      && (forall t :: t != s ==> CollectedPoints(r.after.points, t) == CollectedPoints(st.points, t))
      && (CollectedPoints(st.points, s) <= cfg.dataPoints ==> CollectedPoints(r.after.points, s) <= cfg.dataPoints)
  {
  }

  /**
   * The invariant a call keeps: unique raw keys, a bucket within bounds, and no symbol counted more
   * often than it has stored rows (a failed progress update can leave a row uncounted, never the reverse).
   */
  ghost predicate Consistent(cfg: Config, st: Stores) {
    && cfg.rate > 0.0
    && UniqueRawKeys(st.raw)
    && InBounds(cfg.rate, st.bucket)
    && forall t :: CollectedPoints(st.points, t) <= CountOf(st.raw, t)
  }

  lemma IngestConsistent(cfg: Config, st: Stores, s: Symbol, at: Attempt)
    requires Consistent(cfg, st) && at.clock >= st.bucket.lastCheck
    ensures Consistent(cfg, Ingest(cfg, st, s, at).after)
  {
    var r := Ingest(cfg, st, s, at);
    if !at.readFails && CollectedPoints(st.points, s) < cfg.dataPoints {
      AcquireInBounds(cfg.rate, cfg.rate, st.bucket, at.clock);
      IngestTakesOnePermit(cfg, st, s, at);
      IngestRawRow(cfg, st, s, at);
      IngestProgress(cfg, st, s, at);
      if r.after.raw != st.raw {
        var row := RawRow(s, at.response.value, at.captureTime);
        InsertRawSpec(st.raw, row);
        assert r.after.points == st.points || r.after.points == Bumped(st.points, s);
        CountsKept(st.points, r.after.points, st.raw, r.after.raw, s);
      }
    }
  }

  /** Appending a row of `s` keeps each count within the rows, whether or not `s` is counted once more. */
  lemma CountsKept(points: map<Symbol, nat>, points': map<Symbol, nat>, raw: seq<RawRow>, raw': seq<RawRow>, s: Symbol)
    requires forall t :: CollectedPoints(points, t) <= CountOf(raw, t)
    requires CountOf(raw', s) == CountOf(raw, s) + 1
    requires forall t :: t != s ==> CountOf(raw', t) == CountOf(raw, t)
    requires points' == points || points' == Bumped(points, s)
    ensures forall t :: CollectedPoints(points', t) <= CountOf(raw', t)
  {
    forall t
      ensures CollectedPoints(points', t) <= CountOf(raw', t)
    {
      if t != s {
        assert CollectedPoints(points', t) == CollectedPoints(points, t);
      }
    }
  }

  /** Repeated calls for `s`, one per attempt, each at a clock reading no earlier than the last. */
  function IngestRun(cfg: Config, st: Stores, s: Symbol, attempts: seq<Attempt>): Stores
    requires cfg.rate > 0.0
    decreases |attempts|
  {
    if attempts == [] then st
    else IngestRun(cfg, Ingest(cfg, st, s, attempts[0]).after, s, attempts[1..])
  }

  predicate ClockAdvances(attempts: seq<Attempt>) {
    forall i, j :: 0 <= i < j < |attempts| ==> attempts[i].clock <= attempts[j].clock
  }

  /**
   * However many sequential calls are made and however each one fails, the progress of `s` never
   * passes the quota, never exceeds its stored rows, and rises by at most one per call.
   */
  lemma {:induction false} IngestRunBounded(cfg: Config, st: Stores, s: Symbol, attempts: seq<Attempt>)
    requires Consistent(cfg, st) && CollectedPoints(st.points, s) <= cfg.dataPoints
    requires ClockAdvances(attempts) && (attempts != [] ==> attempts[0].clock >= st.bucket.lastCheck)
    ensures var end := IngestRun(cfg, st, s, attempts);
      Consistent(cfg, end)
      && CollectedPoints(end.points, s) <= cfg.dataPoints
      && CollectedPoints(end.points, s) <= CollectedPoints(st.points, s) + |attempts|
      && forall t :: t != s ==> CollectedPoints(end.points, t) == CollectedPoints(st.points, t)
    decreases |attempts|
  {
    if attempts != [] {
      var next := Ingest(cfg, st, s, attempts[0]).after;
      IngestConsistent(cfg, st, s, attempts[0]);
      IngestProgress(cfg, st, s, attempts[0]);
      assert next.bucket.lastCheck == attempts[0].clock || next.bucket == st.bucket;
      assert ClockAdvances(attempts[1..]);
      IngestRunBounded(cfg, next, s, attempts[1..]);
    }
  }

  /** `BinanceIngestionClient`: the quota, the rate limiter and the two stores it writes. */
  class BinanceIngestionClient {
    const symbols: seq<Symbol>
    const dataPoints: nat
    const limiter: RateLimiter
    const progress: StateRepository
    const rawRepo: RawDataRepository

    ghost predicate Valid()
      reads this, limiter, rawRepo
    {
      limiter.Valid() && rawRepo.Valid()
    }

    function Settings(): Config
      reads this, limiter
    {
      Config(dataPoints, limiter.fillRate)
    }

    function Snapshot(): Stores
      reads this, limiter, progress, rawRepo
    {
      Stores(progress.points, rawRepo.rows, limiter.State())
    }

    /** A client over fresh stores with a full rate limiter of `apiRateLimit` calls per second. */
    constructor (symbols: seq<Symbol>, dataPoints: nat, apiRateLimit: real, now: real)
      requires apiRateLimit > 0.0
      ensures Valid() && fresh(limiter) && fresh(progress) && fresh(rawRepo)
      ensures this.symbols == symbols && this.dataPoints == dataPoints
      ensures limiter.capacity == apiRateLimit && limiter.fillRate == apiRateLimit
      ensures Snapshot() == Stores(map[], [], Bucket(apiRateLimit, now))
    {
      this.symbols := symbols;
      this.dataPoints := dataPoints;
      limiter := new RateLimiter(apiRateLimit, now);
      progress := new StateRepository();
      rawRepo := new RawDataRepository();
    }

    /** `ingest_data(symbol)`, returning how it ended and how long it slept for the permit. */
    method IngestData(symbol: Symbol, at: Attempt) returns (step: Step, wait: real)
      requires Valid() && at.clock >= limiter.lastCheck
      modifies limiter, progress, rawRepo
      ensures Valid()
      ensures Ingested(Snapshot(), step, wait) == Ingest(old(Settings()), old(Snapshot()), symbol, at)
    {
      var read := progress.GetCollectedPoints(symbol, at.readFails);
      if read.Err? {
        return ReadFailed(read.error), 0.0;
      }
      if read.value >= dataPoints {
        return QuotaReached, 0.0;
      }
      wait := limiter.Enter(at.clock);
      match at.response {
        case None =>
          step := FetchFailed;
        case Some(data) =>
          var outcome := rawRepo.InsertRawData(symbol, data, at.captureTime, at.rawFails);
          if outcome.Failed? {
            step := InsertFailed(outcome.error);
          } else {
            var r := progress.UpdateCollectedPoints(symbol, at.stateFails);
            match r {
              case Err(e) => step := UpdateFailed(e);
              case Ok(n) => step := Collected(n);
            }
          }
      }
      limiter.Exit();
    }
  }
}
