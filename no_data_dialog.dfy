/**
 * The dialog shown when the server has no current data
 * (`apps/web/src/components/information/NoDataDialog.tsx`).
 */
module NoDataDialog {
  import opened Wrappers
  import DelayLegend

  /** `isStaleData`: an age is known and is above zero. */
  predicate IsStaleData(dataAgeMinutes: Option<int>)
    ensures IsStaleData(dataAgeMinutes) <==> dataAgeMinutes.Some? && dataAgeMinutes.value >= 1
    ensures DelayLegend.IsOutdated(dataAgeMinutes) ==> IsStaleData(dataAgeMinutes)
  {
    dataAgeMinutes.Some? && dataAgeMinutes.value > 0
  }

  /** The generic "no data" title and text, or the stale-data title and a text carrying the age. */
  datatype DialogMessage = NoData | StaleData(minutes: int)

  function Message(dataAgeMinutes: Option<int>): (m: DialogMessage)
    ensures m.StaleData? <==> IsStaleData(dataAgeMinutes)
    ensures m.StaleData? ==> m.minutes == dataAgeMinutes.value && m.minutes > 0
    ensures dataAgeMinutes.None? || dataAgeMinutes == Some(0) ==> m == NoData
  {
    if IsStaleData(dataAgeMinutes) then StaleData(dataAgeMinutes.value) else NoData
  }

  /**
   * Every age the legend calls outdated is stale here, but not conversely:
   * one minute is stale in the dialog and not outdated in the legend.
   */
  lemma StaleVersusOutdated(dataAgeMinutes: Option<int>)
    ensures DelayLegend.IsOutdated(dataAgeMinutes) ==> IsStaleData(dataAgeMinutes)
    ensures IsStaleData(dataAgeMinutes) && !DelayLegend.IsOutdated(dataAgeMinutes) <==> dataAgeMinutes == Some(1)
  {
  }
}
