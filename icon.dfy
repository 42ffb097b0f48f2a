/** The marker colour of a vehicle on the map (`apps/web/src/util/icon.ts`). */
module Icon {
  import opened DelayBands

  const Grey := "#9CA3AF"
  const Green := "#4AD94A"
  const Yellow := "#E4DE3A"
  const Orange := "#DF9227"
  const Red := "#D9564A"

  /** The band colours ordered by severity. */
  const Palette: seq<string> := [Green, Yellow, Orange, Red]

  /** `getDelayColor(delay, active, isStale)`. */
  function DelayColor(delay: int, active: bool, isStale: bool): (c: string)
    ensures c in {Grey, Green, Yellow, Orange, Red}
    ensures isStale ==> c == Grey
    ensures !isStale && !active ==> c == Green
    ensures !isStale && active ==> c == Palette[Severity(delay)]
  {
    if isStale then Grey
    else if !active then Green
    else if delay >= RedThreshold then Red
    else if delay >= OrangeThreshold then Orange
    else if delay >= YellowThreshold then Yellow
    else Green
  }

  /** The severity rank of a band colour: its index in `Palette`. */
  function Rank(c: string): (r: int)
    ensures 0 <= r < |Palette| ==> Palette[r] == c
  {
    if c == Green then 0 else if c == Yellow then 1 else if c == Orange then 2 else if c == Red then 3 else -1
  }

  /** For active, current trains the colour never gets less severe as the delay grows. */
  lemma DelayColorMonotone(d1: int, d2: int)
    requires d1 <= d2
    ensures Rank(DelayColor(d1, true, false)) <= Rank(DelayColor(d2, true, false))
  {
    SeverityMonotone(d1, d2);
  }
}
