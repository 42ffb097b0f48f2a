/**
 * The hover label of a vehicle marker
 * (`apps/web/src/components/map/TrainTooltip.tsx`): from the trip name it
 * cuts the stretch from the first to the last pair of adjacent capital
 * letters (the train category, such as "IC" or "ZUGLÓI"), and flags
 * tram-trains.
 */
module TrainTooltip {
  import opened Wrappers
  import Strings

  /** The accented Hungarian capitals: Á É Í Ó Ö Ő Ú Ü Ű. */
  const AccentedCapitals: set<char> :=
    {'\U{00C1}', '\U{00C9}', '\U{00CD}', '\U{00D3}', '\U{00D6}', '\U{0150}', '\U{00DA}', '\U{00DC}', '\U{0170}'}

  /** `isCapital`: A to Z or one of the accented Hungarian capitals. */
  predicate IsCapital(c: char) {
    ('A' <= c <= 'Z') || c in AccentedCapitals
  }

  /** Characters `i` and `i + 1` of `s` are both capitals. */
  predicate CapitalPairAt(s: string, i: int) {
    0 <= i < |s| - 1 && IsCapital(s[i]) && IsCapital(s[i + 1])
  }

  /** The forward scan: `startPos`, the first capital pair, or -1. */
  method FindStart(tripName: string) returns (startPos: int)
    ensures startPos == -1 <==> forall i :: !CapitalPairAt(tripName, i)
    ensures startPos != -1 ==> CapitalPairAt(tripName, startPos)
    ensures forall i :: 0 <= i < startPos ==> !CapitalPairAt(tripName, i)
  {
    startPos := -1;
    if tripName != "" {
      var i := 0;
      while i < |tripName| - 1
        invariant 0 <= i
        invariant |tripName| >= 1 ==> i <= |tripName| - 1
        invariant startPos == -1
        invariant forall k :: 0 <= k < i ==> !CapitalPairAt(tripName, k)
      {
        if IsCapital(tripName[i]) && IsCapital(tripName[i + 1]) {
          assert CapitalPairAt(tripName, i);
          startPos := i;
          break;
        }
        i := i + 1;
      }
    }
  }

  /** The backward scan: `endPos`, one past the first character of the last capital pair, or -1. */
  method FindEnd(tripName: string) returns (endPos: int)
    ensures endPos == -1 <==> forall i :: !CapitalPairAt(tripName, i)
    ensures endPos != -1 ==> CapitalPairAt(tripName, endPos - 1)
    ensures forall i :: endPos - 1 < i ==> !CapitalPairAt(tripName, i)
  {
    endPos := -1;
    if tripName != "" {
      var i := |tripName| - 2;
      while i >= 0
        invariant -1 <= i <= |tripName| - 2
        invariant endPos == -1
        invariant forall k :: i < k ==> !CapitalPairAt(tripName, k)
      {
        if IsCapital(tripName[i]) && IsCapital(tripName[i + 1]) {
          assert CapitalPairAt(tripName, i);
          endPos := i + 1;
          break;
        }
        i := i - 1;
      }
    }
  }

  /**
   * What the two scans establish about the stretch they delimit: the scans
   * both succeed exactly when there is a capital pair, and then the stretch
   * starts and ends with one and holds every one.
   */
  lemma ScansDelimitPairs(s: string, startPos: int, endPos: int)
    requires startPos == -1 <==> forall i :: !CapitalPairAt(s, i)
    requires startPos != -1 ==> CapitalPairAt(s, startPos)
    requires forall i :: 0 <= i < startPos ==> !CapitalPairAt(s, i)
    requires endPos == -1 <==> forall i :: !CapitalPairAt(s, i)
    requires endPos != -1 ==> CapitalPairAt(s, endPos - 1)
    requires forall i :: endPos - 1 < i ==> !CapitalPairAt(s, i)
    ensures (startPos != -1 && endPos != -1 && startPos <= endPos && s != "") <==> exists i :: CapitalPairAt(s, i)
    ensures startPos != -1 ==>
              exists a, e :: (CapitalPairAt(s, a) && CapitalPairAt(s, e) && a <= e
                && s[startPos..endPos + 1] == s[a..e + 2]
                && (forall i :: CapitalPairAt(s, i) ==> a <= i <= e))
    ensures startPos != -1 ==>
              startPos <= endPos - 1 && |s[startPos..endPos + 1]| >= 2 && CapitalPairAt(s[startPos..endPos + 1], 0)
              && CapitalPairAt(s[startPos..endPos + 1], |s[startPos..endPos + 1]| - 2)
  {
    if startPos != -1 {
      var a, e := startPos, endPos - 1;
      assert CapitalPairAt(s, e);
      var t := s[a..e + 2];
      assert t[0] == s[a] && t[1] == s[a + 1];
      assert t[e - a] == s[e] && t[e - a + 1] == s[e + 1];
      assert forall i :: CapitalPairAt(s, i) ==> a <= i <= e;
      assert s[startPos..endPos + 1] == s[a..e + 2];
    }
  }

  /**
   * `extractedText`: the inclusive stretch `[startPos, endPos]`, present
   * exactly when the name holds a capital pair. It starts and ends with a
   * capital pair and no capital pair lies outside it.
   */
  method ExtractedText(tripName: string) returns (text: Option<string>)
    ensures text.None? <==> forall i :: !CapitalPairAt(tripName, i)
    ensures text.Some? ==> exists a, e :: (CapitalPairAt(tripName, a) && CapitalPairAt(tripName, e) && a <= e
      && text.value == tripName[a..e + 2]
      && (forall i :: CapitalPairAt(tripName, i) ==> a <= i <= e))
    ensures text.Some? ==> |text.value| >= 2 && CapitalPairAt(text.value, 0) && CapitalPairAt(text.value, |text.value| - 2)
  {
    var startPos := FindStart(tripName);
    var endPos := FindEnd(tripName);
    ScansDelimitPairs(tripName, startPos, endPos);
    text := None;
    if startPos != -1 && endPos != -1 && startPos <= endPos && tripName != "" {
      text := Some(tripName[startPos..endPos + 1]);
    }
  }

  /** What the label shows next to the route badge. */
  datatype NameDisplay = NameDisplay(extracted: Option<string>, tramTrain: bool)

  datatype Tooltip = Hidden | Shown(name: Option<NameDisplay>)

  /** `TrainTooltip`: hidden when tooltips are off; no name part for an empty trip name. */
  method TrainTooltipFor(tripName: string, showTooltip: bool) returns (t: Tooltip)
    ensures !showTooltip <==> t == Hidden
    ensures t.Shown? ==> (t.name.None? <==> tripName == "")
    ensures t.Shown? && t.name.Some? ==>
      (t.name.value.tramTrain <==> Strings.EndsWith(tripName, "TramTrain"))
      && (t.name.value.extracted.None? <==> forall i :: !CapitalPairAt(tripName, i))
    ensures t.Shown? && t.name.Some? && t.name.value.extracted.Some? ==>
      exists a, e :: (CapitalPairAt(tripName, a) && CapitalPairAt(tripName, e) && a <= e
        && t.name.value.extracted.value == tripName[a..e + 2]
        && (forall i :: CapitalPairAt(tripName, i) ==> a <= i <= e))
  {
    if !showTooltip {
      return Hidden;
    }
    if tripName == "" {
      return Shown(None);
    }
    var extracted := ExtractedText(tripName);
    t := Shown(Some(NameDisplay(extracted, Strings.EndsWith(tripName, "TramTrain"))));
  }
}
