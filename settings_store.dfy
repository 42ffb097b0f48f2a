/**
 * The vocabulary the settings panel and the map share: the `localStorage`
 * keys (`mhav.settings.<name>`), the base-map keys of
 * `apps/web/src/util/mapConfigs.ts`, and the window events through which the
 * panel tells the map about a change. Storage is a string-to-string map and
 * the dispatched events are an append-only log.
 */
module SettingsStore {
  const Prefix := "mhav.settings."

  /** The storage key of a setting name. */
  function StorageKey(name: string): (k: string)
    ensures |k| == |Prefix| + |name| && k[..|Prefix|] == Prefix && k[|Prefix|..] == name
  {
    Prefix + name
  }

  /** Distinct setting names never share a storage entry. */
  lemma StorageKeyInjective(a: string, b: string)
    requires StorageKey(a) == StorageKey(b)
    ensures a == b
  {
    assert a == StorageKey(a)[|Prefix|..];
  }

  const OpenStreetMap := "openstreetmap"
  const OpenTopoMap := "opentopomap"
  const BaseMapKeys: set<string> := {OpenStreetMap, OpenTopoMap}

  /** A stored flag: absent means true, present means "is it exactly `true`". */
  predicate StoredFlag(storage: map<string, string>, name: string) {
    StorageKey(name) !in storage || storage[StorageKey(name)] == "true"
  }

  /** `value.toString()` of a boolean. */
  function BoolToString(b: bool): (s: string)
    ensures (s == "true") == b
  {
    if b then "true" else "false"
  }

  /** Writing a flag and reading it back gives the flag. */
  lemma StoredFlagRoundTrip(storage: map<string, string>, name: string, b: bool)
    ensures StoredFlag(storage[StorageKey(name) := BoolToString(b)], name) == b
  {
  }

  datatype VehicleTypes = VehicleTypes(showTrains: bool, showTramTrains: bool, showHev: bool)

  /** The window events, with their `detail`. */
  datatype Event =
    | TooltipSettingChanged(show: bool)
    | StationNamesSettingChanged(show: bool)
    | StationNamesOpacityChanged(opacity: real)
    | VehicleTypeSettingsChanged(types: VehicleTypes)
    | BaseMapChanged(baseMap: string)
    | RailwayOverlayChanged(show: bool)
}
