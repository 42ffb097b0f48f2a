/**
 * The data-age warnings of the map legend
 * (`apps/web/src/components/information/DelayLegend.tsx`). `dataAgeMinutes`
 * is `None` when the prop is undefined; an undefined `hasTrains` is `false`.
 */
module DelayLegend {
  import opened Wrappers

  const VeryOldMinutes := 15

  /** `isOutdated`: an age is known and exceeds one minute. */
  predicate IsOutdated(dataAgeMinutes: Option<int>)
    ensures IsOutdated(dataAgeMinutes) <==> dataAgeMinutes.Some? && dataAgeMinutes.value >= 2
  {
    dataAgeMinutes.Some? && dataAgeMinutes.value > 1
  }

  /** `isVeryOld`: outdated and at least 15 minutes old. */
  predicate IsVeryOld(dataAgeMinutes: Option<int>)
    ensures IsVeryOld(dataAgeMinutes) ==> IsOutdated(dataAgeMinutes)
    ensures IsVeryOld(dataAgeMinutes) <==> dataAgeMinutes.Some? && dataAgeMinutes.value >= VeryOldMinutes
  {
    IsOutdated(dataAgeMinutes) && dataAgeMinutes.value >= VeryOldMinutes
  }

  /** `showWarningAbove`: the floating warning over the legend. */
  predicate ShowWarningAbove(dataAgeMinutes: Option<int>, hasTrains: bool)
    ensures ShowWarningAbove(dataAgeMinutes, hasTrains) ==> hasTrains && dataAgeMinutes.Some? && dataAgeMinutes.value >= VeryOldMinutes
    ensures ShowWarningAbove(dataAgeMinutes, hasTrains) ==> IsOutdated(dataAgeMinutes)
  {
    IsVeryOld(dataAgeMinutes) && hasTrains
  }

  /** The warning inside the opened legend. */
  predicate ShowInlineWarning(dataAgeMinutes: Option<int>)
    ensures ShowInlineWarning(dataAgeMinutes) <==> dataAgeMinutes.Some? && 2 <= dataAgeMinutes.value < VeryOldMinutes
  {
    IsOutdated(dataAgeMinutes) && !IsVeryOld(dataAgeMinutes)
  }

  /**
   * Very old data is outdated; the floating warning needs trains on the map
   * and an age of at least 15 minutes; the inline warning covers the ages
   * from 2 to 14 minutes; and the two warnings are never shown together.
   */
  lemma WarningBands(dataAgeMinutes: Option<int>, hasTrains: bool)
    ensures IsVeryOld(dataAgeMinutes) ==> IsOutdated(dataAgeMinutes)
    ensures ShowWarningAbove(dataAgeMinutes, hasTrains) <==>
      hasTrains && dataAgeMinutes.Some? && dataAgeMinutes.value >= VeryOldMinutes
    ensures ShowInlineWarning(dataAgeMinutes) <==>
      dataAgeMinutes.Some? && 1 < dataAgeMinutes.value < VeryOldMinutes
    ensures !(ShowWarningAbove(dataAgeMinutes, hasTrains) && ShowInlineWarning(dataAgeMinutes))
  {
  }

  datatype LegendIcon = ChevronUp | Exclamation | Info

  /** The icon of the legend's toggle button. */
  function ToggleIcon(isOpen: bool, dataAgeMinutes: Option<int>): (icon: LegendIcon)
    ensures isOpen <==> icon == ChevronUp
    ensures !isOpen ==> (icon == Exclamation <==> IsOutdated(dataAgeMinutes))
  {
    if isOpen then ChevronUp else if IsOutdated(dataAgeMinutes) then Exclamation else Info
  }
}
