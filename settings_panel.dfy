/**
 * The settings panel (`apps/web/src/components/settings/SettingsComponent.tsx`):
 * it loads every setting from storage over the defaults, writes single
 * settings back, and announces each change to the map with a window event.
 * The 300 ms debounce of the opacity slider is not modelled; its timer body
 * is `CommitOpacity`.
 */
module SettingsPanel {
  import opened Wrappers
  import opened SettingsStore

  datatype Settings = Settings(
    showTooltip: bool,
    showStationNames: bool,
    stationNamesOpacity: real,
    showTrains: bool,
    showTramTrains: bool,
    showHev: bool,
    baseMap: string,
    showRailwayOverlay: bool)

  const DefaultOpacity := 0.7

  /** `defaultSettings`. */
  const DefaultSettings := Settings(true, true, DefaultOpacity, true, true, true, OpenStreetMap, true)

  datatype SettingKey =
    | ShowTooltip | ShowStationNames | StationNamesOpacity | ShowTrains
    | ShowTramTrains | ShowHev | BaseMap | ShowRailwayOverlay

  /** `Object.keys(defaultSettings)`, in declaration order. */
  const AllKeys: seq<SettingKey> :=
    [ShowTooltip, ShowStationNames, StationNamesOpacity, ShowTrains, ShowTramTrains, ShowHev, BaseMap, ShowRailwayOverlay]

  lemma AllKeysComplete(k: SettingKey)
    ensures k in AllKeys
  {
  }

  function Name(k: SettingKey): string {
    match k
    case ShowTooltip => "showTooltip"
    case ShowStationNames => "showStationNames"
    case StationNamesOpacity => "stationNamesOpacity"
    case ShowTrains => "showTrains"
    case ShowTramTrains => "showTramTrains"
    case ShowHev => "showHev"
    case BaseMap => "baseMap"
    case ShowRailwayOverlay => "showRailwayOverlay"
  }

  /** A value of `Partial<Settings>`. */
  datatype SettingValue = Flag(b: bool) | Number(x: real) | BaseMapName(key: string)

  /** What one stored entry contributes on load: nothing, a parsed number, a known base map, or a flag. */
  function StoredValue(storage: map<string, string>, k: SettingKey, parseFloat: string -> real): (v: Option<SettingValue>)
    ensures StorageKey(Name(k)) !in storage ==> v.None?
    ensures k == BaseMap && v.Some? ==> v.value.BaseMapName? && v.value.key in BaseMapKeys
  {
    var key := StorageKey(Name(k));
    if key !in storage then None
    else if k == StationNamesOpacity then Some(Number(parseFloat(storage[key])))
    else if k == BaseMap then
      (if storage[key] in BaseMapKeys then Some(BaseMapName(storage[key])) else None)
    else Some(Flag(storage[key] == "true"))
  }

  /** `{ ...settings, [k]: v }` for a value of the key's own type. */
  function With(s: Settings, k: SettingKey, v: SettingValue): Settings {
    match (k, v)
    case (ShowTooltip, Flag(b)) => s.(showTooltip := b)
    case (ShowStationNames, Flag(b)) => s.(showStationNames := b)
    case (StationNamesOpacity, Number(x)) => s.(stationNamesOpacity := x)
    case (ShowTrains, Flag(b)) => s.(showTrains := b)
    case (ShowTramTrains, Flag(b)) => s.(showTramTrains := b)
    case (ShowHev, Flag(b)) => s.(showHev := b)
    case (BaseMap, BaseMapName(m)) => s.(baseMap := m)
    case (ShowRailwayOverlay, Flag(b)) => s.(showRailwayOverlay := b)
    case _ => s
  }

  function FlagOr(stored: map<SettingKey, SettingValue>, k: SettingKey, default: bool): bool {
    if k in stored && stored[k].Flag? then stored[k].b else default
  }

  /** `{ ...base, ...stored }`: each setting present in `stored` replaces the base value. */
  function Merge(base: Settings, stored: map<SettingKey, SettingValue>): Settings {
    Settings(
      FlagOr(stored, ShowTooltip, base.showTooltip),
      FlagOr(stored, ShowStationNames, base.showStationNames),
      if StationNamesOpacity in stored && stored[StationNamesOpacity].Number?
      then stored[StationNamesOpacity].x else base.stationNamesOpacity,
      FlagOr(stored, ShowTrains, base.showTrains),
      FlagOr(stored, ShowTramTrains, base.showTramTrains),
      FlagOr(stored, ShowHev, base.showHev),
      if BaseMap in stored && stored[BaseMap].BaseMapName? then stored[BaseMap].key else base.baseMap,
      FlagOr(stored, ShowRailwayOverlay, base.showRailwayOverlay))
  }

  /**
   * The loaded settings, field by field: a stored flag is "is it exactly
   * `true`", a stored opacity is parsed, a stored base map counts only when it
   * is a known key, anything absent keeps its default, and on mobile the
   * tooltip is off.
   */
  function Loaded(storage: map<string, string>, parseFloat: string -> real, isMobile: bool): (s: Settings)
    ensures isMobile ==> !s.showTooltip
    ensures s.baseMap in BaseMapKeys
  {
    var opacityKey := StorageKey("stationNamesOpacity");
    var baseMapKey := StorageKey("baseMap");
    Settings(
      !isMobile && StoredFlag(storage, "showTooltip"),
      StoredFlag(storage, "showStationNames"),
      if opacityKey in storage then parseFloat(storage[opacityKey]) else DefaultOpacity,
      StoredFlag(storage, "showTrains"),
      StoredFlag(storage, "showTramTrains"),
      StoredFlag(storage, "showHev"),
      if baseMapKey in storage && storage[baseMapKey] in BaseMapKeys then storage[baseMapKey] else OpenStreetMap,
      StoredFlag(storage, "showRailwayOverlay"))
  }

  /** With nothing stored, loading gives the defaults (tooltip off on mobile). */
  lemma LoadedFromEmpty(parseFloat: string -> real, isMobile: bool)
    ensures Loaded(map[], parseFloat, isMobile) == DefaultSettings.(showTooltip := !isMobile)
  {
  }

  /** A value the panel wrote is what the next load reads, for every flag. */
  lemma LoadedReadsBackFlag(storage: map<string, string>, parseFloat: string -> real, b: bool)
    ensures Loaded(storage[StorageKey("showHev") := BoolToString(b)], parseFloat, false).showHev == b
    ensures Loaded(storage[StorageKey("showTrains") := BoolToString(b)], parseFloat, false).showTrains == b
    ensures Loaded(storage[StorageKey("showRailwayOverlay") := BoolToString(b)], parseFloat, false).showRailwayOverlay == b
  {
    StoredFlagRoundTrip(storage, "showHev", b);
    StoredFlagRoundTrip(storage, "showTrains", b);
    StoredFlagRoundTrip(storage, "showRailwayOverlay", b);
  }

  /** One requested change, typed by its key. */
  datatype Change =
    | SetFlag(key: SettingKey, value: bool)
    | SetOpacity(opacity: real)
    | SetBaseMap(baseMap: string)

  predicate IsFlagKey(k: SettingKey) {
    k != StationNamesOpacity && k != BaseMap
  }

  /** A change of the tooltip flag, which the panel ignores on mobile. */
  predicate IsTooltipChange(c: Change) {
    c.SetFlag? && c.key == ShowTooltip
  }

  predicate WellTyped(c: Change) {
    c.SetFlag? ==> IsFlagKey(c.key)
  }

  function ChangedKey(c: Change): SettingKey {
    match c
    case SetFlag(k, _) => k
    case SetOpacity(_) => StationNamesOpacity
    case SetBaseMap(_) => BaseMap
  }

  function NewValue(c: Change): SettingValue {
    match c
    case SetFlag(_, b) => Flag(b)
    case SetOpacity(x) => Number(x)
    case SetBaseMap(m) => BaseMapName(m)
  }

  /** `value.toString()` of a flag or base-map change. */
  function ValueString(c: Change): string
    requires !c.SetOpacity?
  {
    match c
    case SetFlag(_, b) => BoolToString(b)
    case SetBaseMap(m) => m
  }

  /** The event a stored change announces, given the settings after the change. */
  function Announcement(c: Change, after: Settings): Event
    requires WellTyped(c) && !c.SetOpacity?
  {
    match c
    case SetBaseMap(m) => BaseMapChanged(m)
    case SetFlag(k, b) =>
      match k
      case ShowTooltip => TooltipSettingChanged(b)
      case ShowStationNames => StationNamesSettingChanged(b)
      case ShowRailwayOverlay => RailwayOverlayChanged(b)
      case _ => VehicleTypeSettingsChanged(VehicleTypes(
        if k == ShowTrains then b else after.showTrains,
        if k == ShowTramTrains then b else after.showTramTrains,
        if k == ShowHev then b else after.showHev))
  }

  /** The vehicle-type event carries the new value of the changed flag and the current other two. */
  lemma VehicleTypeAnnouncement(s: Settings, k: SettingKey, b: bool)
    requires k == ShowTrains || k == ShowTramTrains || k == ShowHev
    ensures var after := With(s, k, Flag(b));
      var e := Announcement(SetFlag(k, b), after);
      && e.VehicleTypeSettingsChanged?
      && e.types == VehicleTypes(after.showTrains, after.showTramTrains, after.showHev)
      && (k == ShowTrains ==> e.types.showTrains == b && e.types.showTramTrains == s.showTramTrains && e.types.showHev == s.showHev)
      && (k == ShowHev ==> e.types.showHev == b && e.types.showTrains == s.showTrains && e.types.showTramTrains == s.showTramTrains)
  {
  }

  /** The panel: its settings, the slider's own value, the storage and the events dispatched so far. */
  class Panel {
    var settings: Settings
    var sliderOpacity: real
    var storage: map<string, string>
    var events: seq<Event>
    const isMobile: bool

    constructor(storage: map<string, string>, isMobile: bool)
      ensures settings == DefaultSettings && sliderOpacity == DefaultOpacity
      ensures this.storage == storage && events == [] && this.isMobile == isMobile
    {
      settings := DefaultSettings;
      sliderOpacity := DefaultOpacity;
      this.storage := storage;
      events := [];
      this.isMobile := isMobile;
    }

    /** `loadSettings`: collects the stored values key by key, then merges them over the defaults. */
    method LoadSettings(parseFloat: string -> real)
      modifies this
      ensures settings == Loaded(storage, parseFloat, isMobile)
      ensures sliderOpacity == settings.stationNamesOpacity
      ensures storage == old(storage) && events == old(events)
    {
      var stored := CollectStored(storage, parseFloat, AllKeys);
      MergeAllKeys(storage, parseFloat);
      var loaded := Merge(DefaultSettings, stored);
      if isMobile {
        loaded := loaded.(showTooltip := false);
      }
      settings := loaded;
      sliderOpacity := loaded.stationNamesOpacity;
    }

    /** The effect that re-announces the effective tooltip setting. */
    method AnnounceTooltip()
      modifies this
      ensures events == old(events) + [TooltipSettingChanged(!isMobile && settings.showTooltip)]
      ensures settings == old(settings) && storage == old(storage) && sliderOpacity == old(sliderOpacity)
    {
      events := events + [TooltipSettingChanged(if isMobile then false else settings.showTooltip)];
    }

    /**
     * `updateSetting`: a tooltip change on mobile does nothing; an opacity
     * change only moves the slider (the store and the event follow in
     * `CommitOpacity`); any other change writes its storage key, replaces
     * just that setting, and dispatches exactly its own event.
     */
    method UpdateSetting(c: Change)
      requires WellTyped(c)
      modifies this
      ensures IsTooltipChange(c) && isMobile ==>
        settings == old(settings) && storage == old(storage) && events == old(events) && sliderOpacity == old(sliderOpacity)
      ensures c.SetOpacity? ==>
        sliderOpacity == c.opacity && settings == old(settings) && storage == old(storage) && events == old(events)
      ensures !c.SetOpacity? && !(IsTooltipChange(c) && isMobile) ==>
        && storage == old(storage)[StorageKey(Name(ChangedKey(c))) := ValueString(c)]
        && settings == With(old(settings), ChangedKey(c), NewValue(c))
        && events == old(events) + [Announcement(c, settings)]
        && sliderOpacity == old(sliderOpacity)
    {
      if IsTooltipChange(c) && isMobile {
        return;
      }
      if c.SetOpacity? {
        sliderOpacity := c.opacity;
        return;
      }
      storage := storage[StorageKey(Name(ChangedKey(c))) := ValueString(c)];
      var newSettings := With(settings, ChangedKey(c), NewValue(c));
      settings := newSettings;
      events := events + [Announcement(c, newSettings)];
    }

    /** The debounced opacity write, once its timer fires. */
    method CommitOpacity(value: real, numberToString: real -> string)
      modifies this
      ensures storage == old(storage)[StorageKey("stationNamesOpacity") := numberToString(value)]
      ensures settings == old(settings).(stationNamesOpacity := value)
      ensures events == old(events) + [StationNamesOpacityChanged(value)]
      ensures sliderOpacity == old(sliderOpacity)
    {
      storage := storage[StorageKey("stationNamesOpacity") := numberToString(value)];
      settings := settings.(stationNamesOpacity := value);
      events := events + [StationNamesOpacityChanged(value)];
    }
  }

  /** The `forEach` over the setting names `keys` that fills `storedSettings`. */
  method CollectStored(storage: map<string, string>, parseFloat: string -> real, keys: seq<SettingKey>)
    returns (stored: map<SettingKey, SettingValue>)
    ensures stored == CollectedFrom(storage, parseFloat, keys)
  {
    stored := map[];
    var i := 0;
    while i < |keys|
      invariant 0 <= i <= |keys|
      invariant stored == CollectedFrom(storage, parseFloat, keys[..i])
    {
      var key := keys[i];
      var value := StoredValue(storage, key, parseFloat);
      CollectedStep(storage, parseFloat, keys, i);
      if value.Some? {
        stored := stored[key := value.value];
      }
      i := i + 1;
    }
    assert keys[..i] == keys;
  }

  /** The partial settings the load loop has collected after visiting `keys`. */
  function CollectedFrom(storage: map<string, string>, parseFloat: string -> real, keys: seq<SettingKey>)
    : map<SettingKey, SettingValue>
    decreases |keys|
  {
    if |keys| == 0 then map[]
    else
      var n := |keys| - 1;
      var m := CollectedFrom(storage, parseFloat, keys[..n]);
      var v := StoredValue(storage, keys[n], parseFloat);
      if v.Some? then m[keys[n] := v.value] else m
  }

  lemma CollectedStep(storage: map<string, string>, parseFloat: string -> real, keys: seq<SettingKey>, i: int)
    requires 0 <= i < |keys|
    ensures var v := StoredValue(storage, keys[i], parseFloat);
            var m := CollectedFrom(storage, parseFloat, keys[..i]);
            CollectedFrom(storage, parseFloat, keys[..i + 1]) == if v.Some? then m[keys[i] := v.value] else m
  {
    assert keys[..i + 1][..i] == keys[..i];
  }

  /** A setting is collected exactly when it was visited and has a stored value, and then holds that value. */
  lemma {:induction false} CollectedHas(storage: map<string, string>, parseFloat: string -> real, keys: seq<SettingKey>, k: SettingKey)
    ensures k in CollectedFrom(storage, parseFloat, keys) <==> k in keys && StoredValue(storage, k, parseFloat).Some?
    ensures k in CollectedFrom(storage, parseFloat, keys) ==>
              CollectedFrom(storage, parseFloat, keys)[k] == StoredValue(storage, k, parseFloat).value
    decreases |keys|
  {
    if |keys| > 0 {
      var n := |keys| - 1;
      CollectedHas(storage, parseFloat, keys[..n], k);
      assert keys == keys[..n] + [keys[n]];
    }
  }

  /** The collected map agrees with storage on setting `k`. */
  ghost predicate Holds(storage: map<string, string>, parseFloat: string -> real, stored: map<SettingKey, SettingValue>, k: SettingKey) {
    && (k in stored <==> StoredValue(storage, k, parseFloat).Some?)
    && (k in stored ==> stored[k] == StoredValue(storage, k, parseFloat).value)
  }

  lemma FlagField(storage: map<string, string>, parseFloat: string -> real, stored: map<SettingKey, SettingValue>, k: SettingKey)
    requires IsFlagKey(k) && Holds(storage, parseFloat, stored, k)
    ensures FlagOr(stored, k, true) == StoredFlag(storage, Name(k))
  {
  }

  /**
   * Merging the values collected over every setting name on top of the
   * defaults yields `Loaded`, before the mobile override.
   */
  lemma MergeAllKeys(storage: map<string, string>, parseFloat: string -> real)
    ensures Merge(DefaultSettings, CollectedFrom(storage, parseFloat, AllKeys)) == Loaded(storage, parseFloat, false)
  {
    var stored := CollectedFrom(storage, parseFloat, AllKeys);
    forall k ensures Holds(storage, parseFloat, stored, k) {
      AllKeysComplete(k);
      CollectedHas(storage, parseFloat, AllKeys, k);
    }
    MergeCollected(storage, parseFloat, stored);
  }

  lemma MergeCollected(storage: map<string, string>, parseFloat: string -> real, stored: map<SettingKey, SettingValue>)
    requires forall k :: Holds(storage, parseFloat, stored, k)
    ensures Merge(DefaultSettings, stored) == Loaded(storage, parseFloat, false)
  {
    FlagField(storage, parseFloat, stored, ShowTooltip);
    FlagField(storage, parseFloat, stored, ShowStationNames);
    FlagField(storage, parseFloat, stored, ShowTrains);
    FlagField(storage, parseFloat, stored, ShowTramTrains);
    FlagField(storage, parseFloat, stored, ShowHev);
    FlagField(storage, parseFloat, stored, ShowRailwayOverlay);
    OpacityField(storage, parseFloat, stored);
    BaseMapField(storage, parseFloat, stored);
  }

  lemma OpacityField(storage: map<string, string>, parseFloat: string -> real, stored: map<SettingKey, SettingValue>)
    requires Holds(storage, parseFloat, stored, StationNamesOpacity)
    ensures Merge(DefaultSettings, stored).stationNamesOpacity == Loaded(storage, parseFloat, false).stationNamesOpacity
  {
  }

  lemma BaseMapField(storage: map<string, string>, parseFloat: string -> real, stored: map<SettingKey, SettingValue>)
    requires Holds(storage, parseFloat, stored, BaseMap)
    ensures Merge(DefaultSettings, stored).baseMap == Loaded(storage, parseFloat, false).baseMap
  {
    var key := StorageKey(Name(BaseMap));
    assert key == StorageKey("baseMap");
    if key in storage && storage[key] in BaseMapKeys {
      assert StoredValue(storage, BaseMap, parseFloat) == Some(BaseMapName(storage[key]));
    } else {
      assert StoredValue(storage, BaseMap, parseFloat).None?;
    }
  }
}
