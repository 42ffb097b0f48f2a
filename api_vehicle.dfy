/**
 * The backend's removal rule for old positions (apps/api/api/util/vehicle.py).
 * The wall clock `time.time()` is the parameter `now`, in epoch seconds.
 */
module ApiVehicle {
  import opened Wrappers

  const RemovalThresholdMinutes: real := 120.0

  /**
   * `should_remove`: the minutes elapsed since `lastUpdated` (a missing value
   * counts as 0) strictly exceed 120.
   */
  predicate ShouldRemove(lastUpdated: Option<int>, now: real)
    ensures ShouldRemove(lastUpdated, now) ==> now > lastUpdated.GetOr(0) as real
  {
    (now - lastUpdated.GetOr(0) as real) / 60.0 > RemovalThresholdMinutes
  }

  /** In seconds: removed iff more than 7200 seconds have passed. */
  lemma ShouldRemoveSeconds(lastUpdated: Option<int>, now: real)
    ensures ShouldRemove(lastUpdated, now) <==> now > lastUpdated.GetOr(0) as real + 7200.0
  {
  }

  /** Exactly 120 minutes is not yet too old: the comparison is strict. */
  lemma ExactlyAtThresholdKept(lastUpdated: int)
    ensures !ShouldRemove(Some(lastUpdated), lastUpdated as real + 7200.0)
  {
  }

  /** A position without `lastUpdated` is judged as if updated at epoch 0. */
  lemma MissingCountsAsZero(now: real)
    ensures ShouldRemove(None, now) == ShouldRemove(Some(0), now)
  {
  }

  /** Once a position is too old it stays too old as time passes. */
  lemma ShouldRemoveMonotone(lastUpdated: Option<int>, now: real, later: real)
    requires now <= later && ShouldRemove(lastUpdated, now)
    ensures ShouldRemove(lastUpdated, later)
  {
  }
}
