/**
 * The delay thresholds shared by the map icons and the train panel
 * (`apps/web/src/util/constants.ts`), in minutes.
 */
module DelayBands {
  const YellowThreshold := 5
  const OrangeThreshold := 15
  const RedThreshold := 60

  /**
   * How many thresholds a delay reaches: 0 on time (green), 1 yellow,
   * 2 orange, 3 red. Stated as a count so that the if-chains of the two
   * colour functions have an independent reference.
   */
  function Severity(delay: int): (r: nat)
    ensures r <= 3
    ensures r == 3 <==> delay >= RedThreshold
    ensures r >= 2 <==> delay >= OrangeThreshold
    ensures r >= 1 <==> delay >= YellowThreshold
  {
    (if delay >= YellowThreshold then 1 else 0)
    + (if delay >= OrangeThreshold then 1 else 0)
    + (if delay >= RedThreshold then 1 else 0)
  }

  /** A larger delay never falls into a less severe band. */
  lemma SeverityMonotone(d1: int, d2: int)
    requires d1 <= d2
    ensures Severity(d1) <= Severity(d2)
  {
  }
}
