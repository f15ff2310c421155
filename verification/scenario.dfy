/** One configuration followed from loading to flying: Berlin on the Earth. */
module Scenario {
  import opened Wrappers
  import opened Json
  import opened PluginSettings
  import opened SettingsJson
  import opened SettingsEncoding
  import opened Plugin
  import opened Lookups

  /** `{"targets": {"Earth": {"icon": "x", "locations": {"Berlin": {...}}}}}` */
  function BerlinConfig(): Json {
    JObject(map["targets" := JObject(map["Earth" := JObject(map[
      "icon" := JString("x"),
      "locations" := JObject(map["Berlin" := JObject(map[
        "latitude" := JNumber(52.5), "longitude" := JNumber(13.4),
        "extent" := JNumber(1000.0), "group" := JString("Cities")])])])])])
  }

  const Berlin := Location(52.5, 13.4, 1000.0, "Cities")
  const BerlinSettings := Settings(map["Earth" := Target("x", Some(map["Berlin" := Berlin]))])
  const EarthAnchors := map["Earth" := Anchor("Earth", "IAU_Earth")]
  const Earth := Body("Earth", "IAU_Earth")

  lemma BerlinLoads()
    ensures ParseSettings(BerlinConfig()) == Success(BerlinSettings)
  {
    var target := BerlinSettings.targets["Earth"];
    var targets := BerlinConfig().members["targets"];
    assert EncodeLocations(map["Berlin" := Berlin]).members == map["Berlin" := EncodeLocation(Berlin)];
    assert EncodeTarget(target) == targets.members["Earth"];
    assert (map name | name in BerlinSettings.targets :: EncodeTarget(BerlinSettings.targets[name]))
        == map["Earth" := EncodeTarget(target)];
    SettingsRoundTrip(BerlinSettings);
  }

  lemma BerlinInit()
    ensures Init(BerlinSettings, EarthAnchors) == Success([AddCelestialBody("Earth", "x")])
  {
    var r := Init(BerlinSettings, EarthAnchors);
    assert AnchorsCover(BerlinSettings, EarthAnchors);
    var ks := TargetOrder(BerlinSettings);
    assert "Earth" in ks;
    assert ks == ["Earth"];
    assert r.Success?;
    assert |r.value| == 1 && r.value[0] == AddCelestialBody("Earth", "x");
    assert r.value == [AddCelestialBody("Earth", "x")];
  }

  lemma BerlinListed()
    ensures OnActiveBody(BerlinSettings, Earth)
      == [SetActivePlanet("Earth", "IAU_Earth"), ClearContainer("location-tabs-area"), AddLocation("Cities", "Berlin")]
  {
    var calls := OnActiveBody(BerlinSettings, Earth);
    assert |calls| == 3;
    assert calls[2].name == "Berlin";
  }

  lemma BerlinFlight(toRadians: LngLat -> LngLat, heightOf: LngLat -> real)
    ensures var lngLat := toRadians(LngLat(13.4, 52.5));
      FlyTo(BerlinSettings, EarthAnchors, Some(Earth), "Berlin", toRadians, heightOf)
        == [FlyObserverTo("Earth", "IAU_Earth", lngLat, 1000.0 + heightOf(lngLat), 5.0)]
  {
    assert CentersAreKeys(BerlinSettings, EarthAnchors);
    assert ShownLocations(BerlinSettings, Earth.center) == map["Berlin" := Berlin];
    LookupsAgree(BerlinSettings, EarthAnchors, Earth, "Berlin", toRadians, heightOf);
  }

  lemma UnknownNameNoFlight(toRadians: LngLat -> LngLat, heightOf: LngLat -> real)
    ensures FlyTo(BerlinSettings, EarthAnchors, Some(Earth), "Paris", toRadians, heightOf) == []
  {
    assert CentersAreKeys(BerlinSettings, EarthAnchors);
    assert ShownLocations(BerlinSettings, Earth.center) == map["Berlin" := Berlin];
    LookupsAgree(BerlinSettings, EarthAnchors, Earth, "Paris", toRadians, heightOf);
  }

  /**
   * Loading succeeds, init adds the Earth, activating the Earth lists Berlin
   * under "Cities", and flying to Berlin issues one five-second flight to an
   * altitude of 1000 meters above the terrain; an unknown name or no active
   * body issues none.
   */
  lemma BerlinScenario(toRadians: LngLat -> LngLat, heightOf: LngLat -> real)
    ensures ParseSettings(BerlinConfig()).Success?
    ensures var settings := ParseSettings(BerlinConfig()).value;
      var lngLat := toRadians(LngLat(13.4, 52.5));
      && Init(settings, EarthAnchors) == Success([AddCelestialBody("Earth", "x")])
      && OnActiveBody(settings, Earth)
           == [SetActivePlanet("Earth", "IAU_Earth"), ClearContainer("location-tabs-area"), AddLocation("Cities", "Berlin")]
      && FlyTo(settings, EarthAnchors, Some(Earth), "Berlin", toRadians, heightOf)
           == [FlyObserverTo("Earth", "IAU_Earth", lngLat, 1000.0 + heightOf(lngLat), 5.0)]
      && FlyTo(settings, EarthAnchors, Some(Earth), "Paris", toRadians, heightOf) == []
      && FlyTo(settings, EarthAnchors, None, "Berlin", toRadians, heightOf) == []
  {
    BerlinLoads();
    BerlinInit();
    BerlinListed();
    BerlinFlight(toRadians, heightOf);
    UnknownNameNoFlight(toRadians, heightOf);
  }
}
