/**
 * The map's view of the settings (`apps/web/src/hooks/useMapSettings.ts`):
 * six state cells filled from storage on mount and overwritten one at a time
 * by the settings events.
 */
module MapSettings {
  import opened SettingsStore

  const DefaultOpacity := 0.9

  /** The six state cells together. */
  datatype MapState = MapState(
    showTooltip: bool,
    showStationNames: bool,
    stationNamesOpacity: real,
    vehicleTypes: VehicleTypes,
    baseMap: string,
    showRailwayOverlay: bool)

  /** The state before anything is loaded. */
  const InitialState := MapState(true, true, DefaultOpacity, VehicleTypes(true, true, true), OpenStreetMap, true)

  /**
   * The hook of one mounted map. `parseFloat` stands for JavaScript's
   * `parseFloat` of the stored opacity.
   */
  class MapSettingsHook {
    var showTooltip: bool
    var showStationNames: bool
    var stationNamesOpacity: real
    var vehicleTypes: VehicleTypes
    var baseMap: string
    var showRailwayOverlay: bool
    const isMobile: bool

    function State(): MapState
      reads this
    {
      MapState(showTooltip, showStationNames, stationNamesOpacity, vehicleTypes, baseMap, showRailwayOverlay)
    }

    constructor(isMobile: bool)
      ensures State() == InitialState && this.isMobile == isMobile
    {
      showTooltip := true;
      showStationNames := true;
      stationNamesOpacity := DefaultOpacity;
      vehicleTypes := VehicleTypes(true, true, true);
      baseMap := OpenStreetMap;
      showRailwayOverlay := true;
      this.isMobile := isMobile;
    }

    /** The load effect. */
    method Load(storage: map<string, string>, parseFloat: string -> real)
      modifies this
      ensures showTooltip == (!isMobile && StoredFlag(storage, "showTooltip"))
      ensures showStationNames == StoredFlag(storage, "showStationNames")
      ensures stationNamesOpacity ==
        if StorageKey("stationNamesOpacity") in storage then parseFloat(storage[StorageKey("stationNamesOpacity")])
        else DefaultOpacity
      ensures vehicleTypes == VehicleTypes(
        StoredFlag(storage, "showTrains"), StoredFlag(storage, "showTramTrains"), StoredFlag(storage, "showHev"))
      ensures baseMap ==
        if StorageKey("baseMap") in storage && storage[StorageKey("baseMap")] in BaseMapKeys
        then storage[StorageKey("baseMap")] else old(baseMap)
      ensures showRailwayOverlay == StoredFlag(storage, "showRailwayOverlay")
    {
      var tooltipSetting := StoredFlag(storage, "showTooltip");
      showTooltip := if isMobile then false else tooltipSetting;
      showStationNames := StoredFlag(storage, "showStationNames");
      var opacityKey := StorageKey("stationNamesOpacity");
      stationNamesOpacity := if opacityKey in storage then parseFloat(storage[opacityKey]) else DefaultOpacity;
      vehicleTypes := VehicleTypes(
        StoredFlag(storage, "showTrains"), StoredFlag(storage, "showTramTrains"), StoredFlag(storage, "showHev"));
      var baseMapKey := StorageKey("baseMap");
      assert "" !in BaseMapKeys;
      if baseMapKey in storage && storage[baseMapKey] != "" && storage[baseMapKey] in BaseMapKeys {
        baseMap := storage[baseMapKey];
      }
      showRailwayOverlay := StoredFlag(storage, "showRailwayOverlay");
    }

    /**
     * The event listeners: each overwrites exactly one cell with the event's
     * detail. The tooltip stays off on mobile; a base map is taken without
     * checking it against the known keys.
     */
    method Handle(e: Event)
      modifies this
      ensures match e
        case TooltipSettingChanged(show) => State() == old(State()).(showTooltip := !isMobile && show)
        case StationNamesSettingChanged(show) => State() == old(State()).(showStationNames := show)
        case StationNamesOpacityChanged(opacity) => State() == old(State()).(stationNamesOpacity := opacity)
        case VehicleTypeSettingsChanged(types) => State() == old(State()).(vehicleTypes := types)
        case BaseMapChanged(key) => State() == old(State()).(baseMap := key)
        case RailwayOverlayChanged(show) => State() == old(State()).(showRailwayOverlay := show)
    {
      match e
      case TooltipSettingChanged(show) => showTooltip := if isMobile then false else show;
      case StationNamesSettingChanged(show) => showStationNames := show;
      case StationNamesOpacityChanged(opacity) => stationNamesOpacity := opacity;
      case VehicleTypeSettingsChanged(types) => vehicleTypes := types;
      case BaseMapChanged(key) => baseMap := key;
      case RailwayOverlayChanged(show) => showRailwayOverlay := show;
    }
  }

  /** Loading from empty storage keeps the initial state, and on mobile turns the tooltip off. */
  method LoadEmpty(isMobile: bool, parseFloat: string -> real) returns (s: MapState)
    ensures s == InitialState.(showTooltip := !isMobile)
  {
    var hook := new MapSettingsHook(isMobile);
    hook.Load(map[], parseFloat);
    s := hook.State();
  }

  /** A stored base map that is not a known key is ignored on load but adopted from an event. */
  method UnknownBaseMap(parseFloat: string -> real) returns (loaded: string, handled: string)
    ensures loaded == OpenStreetMap && handled == "satellite"
  {
    var hook := new MapSettingsHook(false);
    hook.Load(map[StorageKey("baseMap") := "satellite"], parseFloat);
    loaded := hook.baseMap;
    hook.Handle(BaseMapChanged("satellite"));
    handled := hook.baseMap;
  }
}
