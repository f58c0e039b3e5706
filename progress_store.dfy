/**
 * The table `ingestion_state`: one `collected_points` counter per symbol, read as 0 when the
 * symbol has no record yet.
 */
module ProgressStore {
  import opened Common

  /** The counter of `s` as `get_collected_points` reads it. */
  function CollectedPoints(m: map<Symbol, nat>, s: Symbol): (n: nat)
    ensures s !in m ==> n == 0
    ensures s in m ==> n == m[s]
  {
    if s in m then m[s] else 0
  }

  /** The store after one increment of `s`: the record created at 1, or its counter raised by 1. */
  function Bumped(m: map<Symbol, nat>, s: Symbol): (r: map<Symbol, nat>)
    ensures s in r && r[s] == CollectedPoints(m, s) + 1
    ensures r.Keys == m.Keys + {s}
    ensures forall t :: t != s ==> CollectedPoints(r, t) == CollectedPoints(m, t)
  {
    m[s := CollectedPoints(m, s) + 1]
  }

  /** The store after `n` increments of `s`. */
  function BumpTimes(m: map<Symbol, nat>, s: Symbol, n: nat): map<Symbol, nat> {
    if n == 0 then m else Bumped(BumpTimes(m, s, n - 1), s)
  }

  /** `n` increments raise the counter of `s` by `n` and leave every other counter as it was. */
  lemma {:induction false} BumpTimesCount(m: map<Symbol, nat>, s: Symbol, n: nat)
    ensures CollectedPoints(BumpTimes(m, s, n), s) == CollectedPoints(m, s) + n
    ensures forall t :: t != s ==> CollectedPoints(BumpTimes(m, s, n), t) == CollectedPoints(m, t)
  {
    if n > 0 {
      BumpTimesCount(m, s, n - 1);
    }
  }

  /** Starting from a symbol with no record, `n` increments make it read `n`. */
  lemma FreshSymbolCount(m: map<Symbol, nat>, s: Symbol, n: nat)
    requires s !in m
    ensures CollectedPoints(BumpTimes(m, s, n), s) == n
  {
    BumpTimesCount(m, s, n);
  }

  /** The repository over `ingestion_state`. */
  class StateRepository {
    var points: map<Symbol, nat>

    constructor ()
      ensures points == map[]
    {
      points := map[];
    }

    /**
     * `get_collected_points`: the stored counter, or 0 for a symbol without a record; a failing
     * query is not caught, so its error propagates.
     */
    method GetCollectedPoints(s: Symbol, queryFails: bool) returns (r: Result<nat>)
      ensures queryFails ==> r == Err(StorageFault)
      ensures !queryFails ==> r == Ok(CollectedPoints(points, s))
      ensures !queryFails && s !in points ==> r == Ok(0)
    {
      if queryFails {
        r := Err(StorageFault);
      } else if s in points {
        r := Ok(points[s]);
      } else {
        r := Ok(0);
      }
    }

    /**
     * `update_collected_points`: create the record at 1 or add 1 to it, commit, and return the new
     * counter; a failed commit rolls back and the error propagates.
     */
    method UpdateCollectedPoints(s: Symbol, commitFails: bool) returns (r: Result<nat>)
      modifies this
      ensures commitFails ==> r == Err(StorageFault) && points == old(points)
      ensures !commitFails ==> r == Ok(CollectedPoints(old(points), s) + 1) && points == Bumped(old(points), s)
    {
      var staged: nat;
      if s in points {
        staged := points[s] + 1;
      } else {
        staged := 1;
      }
      if commitFails {
        r := Err(StorageFault);
      } else {
        points := points[s := staged];
        r := Ok(staged);
      }
    }

    /** `reset_state`: delete every record; a failed commit rolls back and the error propagates. */
    method ResetState(commitFails: bool) returns (outcome: Outcome)
      modifies this
      ensures commitFails ==> outcome == Failed(StorageFault) && points == old(points)
      ensures !commitFails ==> outcome == Done && points == map[]
      ensures !commitFails ==> forall s :: CollectedPoints(points, s) == 0
    {
      if commitFails {
        outcome := Failed(StorageFault);
      } else {
        points := map[];
        outcome := Done;
      }
    }
  }
}
