/**
 * How the two target lookups relate. The active-body handler lists the
 * locations of the target whose KEY is the body's center name; `fly_to` acts on
 * every target whose ANCHOR'S CENTER is the body's center, and does not stop at
 * the first one.
 */
module Lookups {
  import opened Wrappers
  import opened PluginSettings
  import opened StringOrder
  import opened Plugin

  /** Every target's anchor has the target's own name as its center. */
  predicate CentersAreKeys(settings: Settings, anchors: map<string, Anchor>) {
    forall k :: k in settings.targets ==> k in anchors && anchors[k].center == k
  }

  /** No two targets' anchors share a center. */
  predicate CentersDistinct(settings: Settings, anchors: map<string, Anchor>)
    requires AnchorsCover(settings, anchors)
  {
    forall k, k' :: k in settings.targets && k' in settings.targets && k != k' ==>
      anchors[k].center != anchors[k'].center
  }

  /**
   * When every anchor is centered on its own name, the two lookups agree:
   * `fly_to(name)` flies exactly once if the handler listed `name` for the
   * active body, to that listed location, and not at all otherwise.
   */
  lemma LookupsAgree(settings: Settings, anchors: map<string, Anchor>, body: Body, name: string,
                     toRadians: LngLat -> LngLat, heightOf: LngLat -> real)
    requires CentersAreKeys(settings, anchors)
    ensures var shown := ShownLocations(settings, body.center);
      FlyTo(settings, anchors, Some(body), name, toRadians, heightOf)
        == if name in shown then [FlightTo(body, shown[name], toRadians, heightOf)] else []
  {
    var shown := ShownLocations(settings, body.center);
    var cmds := FlyTo(settings, anchors, Some(body), name, toRadians, heightOf);
    MatchingByKey(settings, anchors, body, name);
    if name in shown {
      OnlyElement(cmds, FlightTo(body, shown[name], toRadians, heightOf));
    }
  }

  lemma MatchingByKey(settings: Settings, anchors: map<string, Anchor>, body: Body, name: string)
    requires CentersAreKeys(settings, anchors)
    ensures MatchingTargets(settings, anchors, body, name)
      == if name in ShownLocations(settings, body.center) then {body.center} else {}
  {
  }

  lemma OnlyElement<T>(s: seq<T>, x: T)
    requires |s| == 1 && x in s
    ensures s == [x]
  {
  }

  /**
   * `fly_to(name)` issues nothing exactly when no target anchored at the active
   * body's center holds `name`, whatever the target keys are.
   */
  lemma NoFlightIffNoHolder(settings: Settings, anchors: map<string, Anchor>, body: Body, name: string,
                            toRadians: LngLat -> LngLat, heightOf: LngLat -> real)
    requires AnchorsCover(settings, anchors)
    ensures FlyTo(settings, anchors, Some(body), name, toRadians, heightOf) == [] <==>
      forall k :: k in settings.targets && anchors[k].center == body.center ==>
        name !in settings.targets[k].LocationMap()
  {
    NoMatchingIffNoHolder(settings, anchors, body, name);
    SameSizeBothEmpty(FlyTo(settings, anchors, Some(body), name, toRadians, heightOf),
                      MatchingTargets(settings, anchors, body, name));
  }

  lemma SameSizeBothEmpty<T, U>(s: seq<T>, m: set<U>)
    requires |s| == |m|
    ensures s == [] <==> m == {}
  {
    if m != {} {
      var x :| x in m;
      assert |m| > 0;
    }
  }

  lemma NoMatchingIffNoHolder(settings: Settings, anchors: map<string, Anchor>, body: Body, name: string)
    requires AnchorsCover(settings, anchors)
    ensures MatchingTargets(settings, anchors, body, name) == {} <==>
      forall k :: k in settings.targets && anchors[k].center == body.center ==>
        name !in settings.targets[k].LocationMap()
  {
    var matching := MatchingTargets(settings, anchors, body, name);
    if matching != {} {
      var k :| k in matching;
      assert k in settings.targets && anchors[k].center == body.center && name in settings.targets[k].LocationMap();
    } else {
      forall k | k in settings.targets && anchors[k].center == body.center
        ensures name !in settings.targets[k].LocationMap()
      {
        assert k !in matching;
      }
    }
  }

  /** Without shared centers, `fly_to` issues at most one command. */
  lemma AtMostOneFlight(settings: Settings, anchors: map<string, Anchor>, body: Body, name: string,
                        toRadians: LngLat -> LngLat, heightOf: LngLat -> real)
    requires AnchorsCover(settings, anchors)
    requires CentersDistinct(settings, anchors)
    ensures |FlyTo(settings, anchors, Some(body), name, toRadians, heightOf)| <= 1
  {
    var matching := MatchingTargets(settings, anchors, body, name);
    if matching != {} {
      var k :| k in matching;
      assert matching == {k};
    }
  }

  const Tycho := Location(-43.3, -11.36, 85000.0, "Craters")
  const MoonSettings := Settings(map["Moon" := Target("moon.png", Some(map["Tycho" := Tycho]))])
  const MoonAnchors := map["Moon" := Anchor("MOON", "IAU_Moon")]
  const MoonBody := Body("MOON", "IAU_Moon")

  /**
   * The lookups differ once an anchor's center is not its name: a target "Moon"
   * anchored at center "MOON" lists nothing when "MOON" becomes active, yet
   * `fly_to` flies to its location.
   */
  lemma LookupsDiffer(toRadians: LngLat -> LngLat, heightOf: LngLat -> real)
    ensures OnActiveBody(MoonSettings, MoonBody) == [SetActivePlanet("MOON", "IAU_Moon"), ClearContainer(LocationArea)]
    ensures FlyTo(MoonSettings, MoonAnchors, Some(MoonBody), "Tycho", toRadians, heightOf)
      == [FlightTo(MoonBody, Tycho, toRadians, heightOf)]
  {
    MoonListsNothing();
    MoonFlight(toRadians, heightOf);
  }

  lemma MoonListsNothing()
    ensures OnActiveBody(MoonSettings, MoonBody) == [SetActivePlanet("MOON", "IAU_Moon"), ClearContainer(LocationArea)]
  {
    assert "MOON" !in MoonSettings.targets;
    assert |OnActiveBody(MoonSettings, MoonBody)| == 2;
  }

  lemma MoonFlight(toRadians: LngLat -> LngLat, heightOf: LngLat -> real)
    ensures FlyTo(MoonSettings, MoonAnchors, Some(MoonBody), "Tycho", toRadians, heightOf)
      == [FlightTo(MoonBody, Tycho, toRadians, heightOf)]
  {
    OneMatching(MoonSettings, MoonAnchors, MoonBody, "Tycho");
    var cmds := FlyTo(MoonSettings, MoonAnchors, Some(MoonBody), "Tycho", toRadians, heightOf);
    assert FlightTo(MoonBody, Tycho, toRadians, heightOf) in cmds;
    OnlyElement(cmds, FlightTo(MoonBody, Tycho, toRadians, heightOf));
  }

  lemma OneMatching(settings: Settings, anchors: map<string, Anchor>, body: Body, name: string)
    requires settings.targets.Keys == anchors.Keys == {"Moon"}
    requires anchors["Moon"].center == body.center
    requires name in settings.targets["Moon"].LocationMap()
    ensures AnchorsCover(settings, anchors)
    ensures MatchingTargets(settings, anchors, body, name) == {"Moon"}
  {
  }

  const BerlinByDay := Location(52.52, 13.405, 1000.0, "Cities")
  const BerlinByNight := Location(52.52, 13.405, 20000.0, "Night views")
  const SharedSettings := Settings(map[
    "Earth" := Target("earth.png", Some(map["Berlin" := BerlinByDay])),
    "EarthNight" := Target("night.png", Some(map["Berlin" := BerlinByNight]))])
  const SharedAnchors := map["Earth" := Anchor("Earth", "IAU_Earth"), "EarthNight" := Anchor("Earth", "IAU_Earth")]
  const EarthBody := Body("Earth", "IAU_Earth")

  /**
   * Two targets anchored at the same center that both hold "Berlin" produce two
   * commands, because the target loop of `fly_to` has no `break`. They come in key
   * order, so the observer's final destination is the one of "EarthNight".
   */
  lemma SharedCenterFliesTwice(toRadians: LngLat -> LngLat, heightOf: LngLat -> real)
    ensures FlyTo(SharedSettings, SharedAnchors, Some(EarthBody), "Berlin", toRadians, heightOf)
      == [FlightTo(EarthBody, BerlinByDay, toRadians, heightOf), FlightTo(EarthBody, BerlinByNight, toRadians, heightOf)]
  {
    TwoFlightsInKeyOrder(SharedSettings, SharedAnchors, EarthBody, "Berlin", toRadians, heightOf);
  }

  /** With two matching targets "Earth" and "EarthNight", the flight via "Earth" comes first. */
  lemma TwoFlightsInKeyOrder(settings: Settings, anchors: map<string, Anchor>, body: Body, name: string,
                             toRadians: LngLat -> LngLat, heightOf: LngLat -> real)
    requires settings.targets.Keys == anchors.Keys == {"Earth", "EarthNight"}
    requires anchors["Earth"].center == anchors["EarthNight"].center == body.center
    requires name in settings.targets["Earth"].LocationMap() && name in settings.targets["EarthNight"].LocationMap()
    ensures AnchorsCover(settings, anchors)
    ensures FlyTo(settings, anchors, Some(body), name, toRadians, heightOf)
      == [FlightVia(settings, "Earth", body, name, toRadians, heightOf),
          FlightVia(settings, "EarthNight", body, name, toRadians, heightOf)]
  {
    TwoMatching(settings, anchors, body, name);
    var cmds := FlyTo(settings, anchors, Some(body), name, toRadians, heightOf);
    TwoInKeyOrder(settings, anchors, body, name, toRadians, heightOf, cmds);
  }

  lemma TwoInKeyOrder(settings: Settings, anchors: map<string, Anchor>, body: Body, name: string,
                      toRadians: LngLat -> LngLat, heightOf: LngLat -> real, cmds: seq<FlyCmd>)
    requires AnchorsCover(settings, anchors)
    requires MatchingTargets(settings, anchors, body, name) == {"Earth", "EarthNight"}
    requires FlightsInKeyOrder(settings, anchors, body, name, toRadians, heightOf, cmds)
    ensures cmds == [FlightVia(settings, "Earth", body, name, toRadians, heightOf),
                     FlightVia(settings, "EarthNight", body, name, toRadians, heightOf)]
  {
    var sk := SortedKeys(MatchingTargets(settings, anchors, body, name));
    EarthBeforeEarthNight();
    assert sk == ["Earth", "EarthNight"] && |cmds| == 2;
    assert cmds[0] == FlightVia(settings, sk[0], body, name, toRadians, heightOf);
    assert cmds[1] == FlightVia(settings, sk[1], body, name, toRadians, heightOf);
    TwoElements(cmds, cmds[0], cmds[1]);
  }

  /** std::map visits "Earth" before "EarthNight", a proper prefix coming first. */
  lemma EarthBeforeEarthNight()
    ensures SortedKeys({"Earth", "EarthNight"}) == ["Earth", "EarthNight"]
  {
    var ms := ["Earth", "EarthNight"];
    assert StrictlySorted(ms) by {
      PrefixLess("Earth", "EarthNight");
    }
    SortedIsSortedKeys(ms, {"Earth", "EarthNight"});
  }

  lemma TwoElements<T>(s: seq<T>, x: T, y: T)
    requires |s| == 2 && s[0] == x && s[1] == y
    ensures s == [x, y]
  {
  }

  lemma TwoMatching(settings: Settings, anchors: map<string, Anchor>, body: Body, name: string)
    requires settings.targets.Keys == anchors.Keys == {"Earth", "EarthNight"}
    requires anchors["Earth"].center == anchors["EarthNight"].center == body.center
    requires name in settings.targets["Earth"].LocationMap() && name in settings.targets["EarthNight"].LocationMap()
    ensures AnchorsCover(settings, anchors)
    ensures MatchingTargets(settings, anchors, body, name) == {"Earth", "EarthNight"}
    ensures |MatchingTargets(settings, anchors, body, name)| == 2
  {
    assert MatchingTargets(settings, anchors, body, name) == {"Earth", "EarthNight"};
  }
}
