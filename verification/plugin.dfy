/**
 * Plugin::init and the two callbacks it installs: the handler for a change of
 * the active body and the `fly_to` callback the side bar invokes. Calls into
 * the GUI become GuiCall values and the camera command a FlyCmd value; the
 * degree-to-radian conversion and the terrain height are passed in as
 * functions, because they belong to the host.
 */
module Plugin {
  import opened Wrappers
  import opened StringOrder
  import opened PluginSettings

  /** A named center/frame pair of the host's settings. */
  datatype Anchor = Anchor(center: string, frame: string)

  /** The active celestial body; only its center and frame names are used. */
  datatype Body = Body(center: string, frame: string)

  /** The GUI item a JavaScript call is sent to. */
  datatype GuiItem = HeaderBar | SideBar

  /** A `callJavascript` call on the header bar or the side bar. */
  datatype GuiCall =
    | AddCelestialBody(center: string, icon: string)
    | SetActivePlanet(center: string, frame: string)
    | ClearContainer(id: string)
    | AddLocation(group: string, name: string)
  {
    /** Only `set_active_planet` goes to the header bar. */
    function Item(): GuiItem {
      if SetActivePlanet? then HeaderBar else SideBar
    }
  }

  /** A (longitude, latitude) pair, as glm::dvec2 holds it. */
  datatype LngLat = LngLat(lng: real, lat: real)

  /** `SolarSystem::flyObserverTo(center, frame, lngLat, altitude, duration)`. */
  datatype FlyCmd = FlyObserverTo(center: string, frame: string, lngLat: LngLat, altitude: real, duration: real)

  /** Init throws for the first target without an anchor; the calls sent before that stay sent. */
  datatype InitError = MissingAnchor(name: string, sent: seq<GuiCall>)

  /** The side-bar container that lists the active body's locations. */
  const LocationArea := "location-tabs-area"

  /** The duration of every flight. */
  const FlightDuration: real := 5.0

  /** The order std::map visits the targets in. */
  function TargetOrder(settings: Settings): (ks: seq<string>)
    ensures StrictlySorted(ks) && |ks| == |settings.targets|
    ensures forall k :: k in ks <==> k in settings.targets
  {
    SortedKeys(settings.targets.Keys)
  }

  /** Every target names an anchor of the host. */
  predicate AnchorsCover(settings: Settings, anchors: map<string, Anchor>) {
    forall k :: k in settings.targets ==> k in anchors
  }

  /** The `add_celestial_body` call init sends for the target keyed `k`. */
  function CelestialBodyCall(settings: Settings, anchors: map<string, Anchor>, k: string): GuiCall
    requires k in settings.targets && k in anchors
  {
    AddCelestialBody(anchors[k].center, settings.targets[k].icon)
  }

  function RegisterTargets(settings: Settings, anchors: map<string, Anchor>, keys: seq<string>)
    : (r: Result<seq<GuiCall>, InitError>)
    requires forall i :: 0 <= i < |keys| ==> keys[i] in settings.targets
    ensures r.Success? <==> forall i :: 0 <= i < |keys| ==> keys[i] in anchors
    ensures r.Success? ==>
      && |r.value| == |keys|
      && forall i :: 0 <= i < |keys| ==> keys[i] in anchors && r.value[i] == CelestialBodyCall(settings, anchors, keys[i])
    ensures r.Failure? ==>
      exists n :: (0 <= n < |keys| && keys[n] == r.error.name && keys[n] !in anchors && |r.error.sent| == n
                   && forall i :: 0 <= i < n ==>
                        keys[i] in anchors && r.error.sent[i] == CelestialBodyCall(settings, anchors, keys[i]))
    decreases |keys|
  {
    if keys == [] then Success([])
    else if keys[0] !in anchors then Failure(MissingAnchor(keys[0], []))
    else
      var call := CelestialBodyCall(settings, anchors, keys[0]);
      match RegisterTargets(settings, anchors, keys[1..])
      case Success(calls) => Success([call] + calls)
      case Failure(MissingAnchor(name, sent)) => Failure(MissingAnchor(name, [call] + sent))
  }

  /** The target/anchor loop of Plugin::init. */
  function Init(settings: Settings, anchors: map<string, Anchor>): (r: Result<seq<GuiCall>, InitError>)
    ensures r.Success? <==> AnchorsCover(settings, anchors)
    // One add_celestial_body per target, in key order.
    ensures r.Success? ==>
      var ks := TargetOrder(settings);
      && |r.value| == |settings.targets|
      && forall i :: 0 <= i < |ks| ==> ks[i] in anchors && r.value[i] == CelestialBodyCall(settings, anchors, ks[i])
    ensures r.Failure? ==> r.error.name in settings.targets && r.error.name !in anchors
  {
    RegisterTargets(settings, anchors, TargetOrder(settings))
  }

  /**
   * A failing init names the smallest target without an anchor, and before
   * throwing it has sent the add_celestial_body calls of exactly the targets
   * ahead of that one, in key order.
   */
  lemma InitStopsAtFirstMissingAnchor(settings: Settings, anchors: map<string, Anchor>)
    requires Init(settings, anchors).Failure?
    ensures var e := Init(settings, anchors).error;
      var ks := TargetOrder(settings);
      && (forall k :: k in settings.targets && Less(k, e.name) ==> k in anchors)
      && |e.sent| <= |ks|
      && (forall i :: 0 <= i < |e.sent| ==>
            && Less(ks[i], e.name)
            && ks[i] in anchors && e.sent[i] == CelestialBodyCall(settings, anchors, ks[i]))
      && (forall k :: k in settings.targets && Less(k, e.name) ==>
            exists i :: 0 <= i < |e.sent| && ks[i] == k)
  {
    var ks := TargetOrder(settings);
    var e := RegisterTargets(settings, anchors, ks).error;
    var n :| 0 <= n < |ks| && ks[n] == e.name && ks[n] !in anchors && |e.sent| == n
             && forall i :: 0 <= i < n ==>
                  ks[i] in anchors && e.sent[i] == CelestialBodyCall(settings, anchors, ks[i]);
    forall k | k in settings.targets && Less(k, e.name)
      ensures k in anchors && exists i :: 0 <= i < n && ks[i] == k
    {
      var j :| 0 <= j < |ks| && ks[j] == k;
      IndexOrder(ks, j, n);
    }
    forall i | 0 <= i < n
      ensures Less(ks[i], e.name)
    {
      IndexOrder(ks, i, n);
    }
  }

  /** The locations the handler lists for a body: those of the target keyed by its center name. */
  function ShownLocations(settings: Settings, center: string): map<string, Location> {
    if center in settings.targets then settings.targets[center].LocationMap() else map[]
  }

  /** `add_location(group, name)` for each of `names`, in that order. */
  function AddLocations(locations: map<string, Location>, names: seq<string>): (calls: seq<GuiCall>)
    requires forall i :: 0 <= i < |names| ==> names[i] in locations
    ensures |calls| == |names|
    ensures forall i :: 0 <= i < |names| ==> calls[i] == AddLocation(locations[names[i]].group, names[i])
    decreases |names|
  {
    if names == [] then []
    else [AddLocation(locations[names[0]].group, names[0])] + AddLocations(locations, names[1..])
  }

  /** One `add_location(group, name)` per location, in key order. */
  function LocationCalls(locations: map<string, Location>): (calls: seq<GuiCall>)
    ensures |calls| == |locations|
    ensures forall i :: 0 <= i < |calls| ==>
      calls[i].AddLocation? && calls[i].name in locations && calls[i].group == locations[calls[i].name].group
    ensures forall name :: name in locations <==> exists i :: 0 <= i < |calls| && calls[i].name == name
    ensures forall i, j :: 0 <= i < j < |calls| ==> Less(calls[i].name, calls[j].name)
  {
    var names := SortedKeys(locations.Keys);
    var calls := AddLocations(locations, names);
    AddLocationsCover(locations, names, calls);
    AddLocationsSorted(locations, names, calls);
    calls
  }

  lemma AddLocationsCover(locations: map<string, Location>, names: seq<string>, calls: seq<GuiCall>)
    requires forall k :: k in names <==> k in locations
    requires calls == AddLocations(locations, names)
    ensures forall name :: name in locations <==> exists i :: 0 <= i < |calls| && calls[i].name == name
  {
    forall name | name in locations
      ensures exists i :: 0 <= i < |calls| && calls[i].name == name
    {
      var i :| 0 <= i < |names| && names[i] == name;
      assert calls[i].name == name;
    }
  }

  lemma AddLocationsSorted(locations: map<string, Location>, names: seq<string>, calls: seq<GuiCall>)
    requires forall i :: 0 <= i < |names| ==> names[i] in locations
    requires StrictlySorted(names)
    requires calls == AddLocations(locations, names)
    ensures forall i, j :: 0 <= i < j < |calls| ==> Less(calls[i].name, calls[j].name)
  {
    forall i, j | 0 <= i < j < |calls|
      ensures Less(calls[i].name, calls[j].name)
    {
      assert calls[i].name == names[i] && calls[j].name == names[j];
    }
  }

  /** The `pActiveBody.onChange` handler, for a (non-null) new active body. */
  function OnActiveBody(settings: Settings, body: Body): (calls: seq<GuiCall>)
    ensures |calls| == 2 + |ShownLocations(settings, body.center)|
    ensures calls[0] == SetActivePlanet(body.center, body.frame) && calls[0].Item() == HeaderBar
    ensures calls[1] == ClearContainer(LocationArea) && calls[1].Item() == SideBar
    ensures body.center !in settings.targets ==> |calls| == 2
  {
    [SetActivePlanet(body.center, body.frame), ClearContainer(LocationArea)]
      + LocationCalls(ShownLocations(settings, body.center))
  }

  /**
   * After its two fixed calls the handler lists exactly the location keys of the
   * target keyed by the body's center, each with its own group: no other name,
   * and none at all when no target has that key.
   */
  lemma HandlerListsLocations(settings: Settings, body: Body)
    ensures var calls := OnActiveBody(settings, body);
      var locations := ShownLocations(settings, body.center);
      && (forall i :: 2 <= i < |calls| ==>
            calls[i].AddLocation? && calls[i].name in locations && calls[i].group == locations[calls[i].name].group)
      && (forall name :: name in locations <==> exists i :: 2 <= i < |calls| && calls[i].name == name)
  {
    var locations := ShownLocations(settings, body.center);
    ShiftedLocationCalls(locations, LocationCalls(locations), OnActiveBody(settings, body));
  }

  /** The handler lists the locations in key order. */
  lemma HandlerKeyOrder(settings: Settings, body: Body)
    ensures var calls := OnActiveBody(settings, body);
      forall i, j :: 2 <= i < j < |calls| ==>
        calls[i].AddLocation? && calls[j].AddLocation? && Less(calls[i].name, calls[j].name)
  {
    var locations := ShownLocations(settings, body.center);
    ShiftedOrder(LocationCalls(locations), OnActiveBody(settings, body));
  }

  /** The `add_location` facts LocationCalls states, two places to the right. */
  lemma ShiftedLocationCalls(locations: map<string, Location>, adds: seq<GuiCall>, calls: seq<GuiCall>)
    requires forall i :: 0 <= i < |adds| ==>
      adds[i].AddLocation? && adds[i].name in locations && adds[i].group == locations[adds[i].name].group
    requires forall name :: name in locations <==> exists i :: 0 <= i < |adds| && adds[i].name == name
    requires |calls| == 2 + |adds| && calls[2..] == adds
    ensures forall i :: 2 <= i < |calls| ==>
      calls[i].AddLocation? && calls[i].name in locations && calls[i].group == locations[calls[i].name].group
    ensures forall name :: name in locations <==> exists i :: 2 <= i < |calls| && calls[i].name == name
  {
    assert forall i :: 2 <= i < |calls| ==> calls[i] == adds[i - 2];
    forall name | name in locations
      ensures exists i :: 2 <= i < |calls| && calls[i].name == name
    {
      var i :| 0 <= i < |adds| && adds[i].name == name;
      assert calls[i + 2].name == name;
    }
  }

  /** The ordering LocationCalls states, two places to the right. */
  lemma ShiftedOrder(adds: seq<GuiCall>, calls: seq<GuiCall>)
    requires forall i :: 0 <= i < |adds| ==> adds[i].AddLocation?
    requires forall i, j :: 0 <= i < j < |adds| ==> Less(adds[i].name, adds[j].name)
    requires |calls| == 2 + |adds| && calls[2..] == adds
    ensures forall i, j :: 2 <= i < j < |calls| ==>
      calls[i].AddLocation? && calls[j].AddLocation? && Less(calls[i].name, calls[j].name)
  {
    forall i, j | 2 <= i < j < |calls|
      ensures calls[i].AddLocation? && calls[j].AddLocation? && Less(calls[i].name, calls[j].name)
    {
      assert calls[i] == adds[i - 2] && calls[j] == adds[j - 2];
    }
  }

  /** The flight to a location of the active body. */
  function FlightTo(body: Body, location: Location, toRadians: LngLat -> LngLat, heightOf: LngLat -> real): FlyCmd {
    var lngLat := toRadians(LngLat(location.longitude, location.latitude));
    FlyObserverTo(body.center, body.frame, lngLat, location.extent + heightOf(lngLat), FlightDuration)
  }

  /** fly_to acts on the target keyed `k`: its anchor's center is the active body's and
      its locations contain `name`. */
  predicate FliesVia(settings: Settings, anchors: map<string, Anchor>, k: string, body: Body, name: string)
    requires k in settings.targets && k in anchors
  {
    anchors[k].center == body.center && name in settings.targets[k].LocationMap()
  }

  /** All targets fly_to acts on. */
  ghost function MatchingTargets(settings: Settings, anchors: map<string, Anchor>, body: Body, name: string): set<string>
    requires AnchorsCover(settings, anchors)
  {
    set k | k in settings.targets && FliesVia(settings, anchors, k, body, name)
  }

  /** The flight `fly_to` issues for the target keyed `k`. */
  function FlightVia(settings: Settings, k: string, body: Body, name: string,
                     toRadians: LngLat -> LngLat, heightOf: LngLat -> real): FlyCmd
    requires k in settings.targets && name in settings.targets[k].LocationMap()
  {
    FlightTo(body, settings.targets[k].LocationMap()[name], toRadians, heightOf)
  }

  /** The keys of `keys` that fly_to acts on, in the order of `keys`. */
  function MatchingKeys(settings: Settings, anchors: map<string, Anchor>, keys: seq<string>, body: Body, name: string)
    : (ms: seq<string>)
    requires forall i :: 0 <= i < |keys| ==> keys[i] in settings.targets && keys[i] in anchors
    ensures forall k :: k in ms <==> k in keys && FliesVia(settings, anchors, k, body, name)
    ensures forall i :: 0 <= i < |ms| ==>
      ms[i] in settings.targets && ms[i] in anchors && FliesVia(settings, anchors, ms[i], body, name)
    decreases |keys|
  {
    if keys == [] then []
    else
      var rest := MatchingKeys(settings, anchors, keys[1..], body, name);
      assert forall k :: k in keys <==> k == keys[0] || k in keys[1..];
      if FliesVia(settings, anchors, keys[0], body, name) then [keys[0]] + rest else rest
  }

  /** Keeping some keys of a strictly sorted sequence keeps it strictly sorted. */
  lemma {:induction false} MatchingKeysSorted(settings: Settings, anchors: map<string, Anchor>, keys: seq<string>,
                                             body: Body, name: string)
    requires forall i :: 0 <= i < |keys| ==> keys[i] in settings.targets && keys[i] in anchors
    requires StrictlySorted(keys)
    ensures StrictlySorted(MatchingKeys(settings, anchors, keys, body, name))
    decreases |keys|
  {
    if keys != [] {
      var tail := keys[1..];
      assert StrictlySorted(tail) by {
        forall i, j | 0 <= i < j < |tail|
          ensures Less(tail[i], tail[j])
        {
          assert tail[i] == keys[i + 1] && tail[j] == keys[j + 1];
        }
      }
      MatchingKeysSorted(settings, anchors, tail, body, name);
      var rest := MatchingKeys(settings, anchors, tail, body, name);
      if FliesVia(settings, anchors, keys[0], body, name) {
        var ms := [keys[0]] + rest;
        forall i, j | 0 <= i < j < |ms|
          ensures Less(ms[i], ms[j])
        {
          assert ms[j] == rest[j - 1] && rest[j - 1] in rest;
          if i == 0 {
            var t :| 0 <= t < |tail| && tail[t] == rest[j - 1];
            assert keys[t + 1] == ms[j];
          } else {
            assert ms[i] == rest[i - 1];
          }
        }
      }
    }
  }

  /** `cmds` are the flights via the targets `ms`, one per target, in the order of `ms`. */
  ghost predicate FlightsAlong(settings: Settings, ms: seq<string>, body: Body, name: string,
                               toRadians: LngLat -> LngLat, heightOf: LngLat -> real, cmds: seq<FlyCmd>)
    requires forall i :: 0 <= i < |ms| ==> ms[i] in settings.targets && name in settings.targets[ms[i]].LocationMap()
  {
    |cmds| == |ms| && forall i :: 0 <= i < |ms| ==> cmds[i] == FlightVia(settings, ms[i], body, name, toRadians, heightOf)
  }

  function FlyCommands(settings: Settings, anchors: map<string, Anchor>, keys: seq<string>, body: Body, name: string,
                       toRadians: LngLat -> LngLat, heightOf: LngLat -> real): (cmds: seq<FlyCmd>)
    requires NoDuplicates(keys)
    requires forall i :: 0 <= i < |keys| ==> keys[i] in settings.targets && keys[i] in anchors
    ensures |cmds| == |set k | k in keys && FliesVia(settings, anchors, k, body, name)|
    ensures forall c :: c in cmds ==>
      exists k :: k in keys && FliesVia(settings, anchors, k, body, name)
        && c == FlightVia(settings, k, body, name, toRadians, heightOf)
    ensures forall k :: k in keys && FliesVia(settings, anchors, k, body, name) ==>
      FlightVia(settings, k, body, name, toRadians, heightOf) in cmds
    // One command per matching key, in the order of `keys`.
    ensures FlightsAlong(settings, MatchingKeys(settings, anchors, keys, body, name), body, name, toRadians, heightOf, cmds)
    decreases |keys|
  {
    if keys == [] then []
    else
      var rest := FlyCommands(settings, anchors, keys[1..], body, name, toRadians, heightOf);
      MatchCountStep(settings, anchors, keys, body, name);
      var ms := MatchingKeys(settings, anchors, keys[1..], body, name);
      if FliesVia(settings, anchors, keys[0], body, name) then
        var cmds := [FlightVia(settings, keys[0], body, name, toRadians, heightOf)] + rest;
        FlightsAlongCons(settings, keys[0], ms, body, name, toRadians, heightOf, rest);
        assert MatchingKeys(settings, anchors, keys, body, name) == [keys[0]] + ms;
        FlightsAlongCover(settings, anchors, keys, body, name, toRadians, heightOf, cmds);
        cmds
      else
        assert MatchingKeys(settings, anchors, keys, body, name) == ms;
        FlightsAlongCover(settings, anchors, keys, body, name, toRadians, heightOf, rest);
        rest
  }

  /** The flights along the matching keys are exactly the flights via the matching keys. */
  lemma FlightsAlongCover(settings: Settings, anchors: map<string, Anchor>, keys: seq<string>, body: Body, name: string,
                          toRadians: LngLat -> LngLat, heightOf: LngLat -> real, cmds: seq<FlyCmd>)
    requires forall i :: 0 <= i < |keys| ==> keys[i] in settings.targets && keys[i] in anchors
    requires FlightsAlong(settings, MatchingKeys(settings, anchors, keys, body, name), body, name, toRadians, heightOf, cmds)
    ensures forall c :: c in cmds ==>
      exists k :: k in keys && FliesVia(settings, anchors, k, body, name)
        && c == FlightVia(settings, k, body, name, toRadians, heightOf)
    ensures forall k :: k in keys && FliesVia(settings, anchors, k, body, name) ==>
      FlightVia(settings, k, body, name, toRadians, heightOf) in cmds
  {
    var ms := MatchingKeys(settings, anchors, keys, body, name);
    forall c | c in cmds
      ensures exists k :: (k in keys && FliesVia(settings, anchors, k, body, name)
                           && c == FlightVia(settings, k, body, name, toRadians, heightOf))
    {
      var i :| 0 <= i < |cmds| && cmds[i] == c;
      assert ms[i] in ms;
    }
    forall k | k in keys && FliesVia(settings, anchors, k, body, name)
      ensures FlightVia(settings, k, body, name, toRadians, heightOf) in cmds
    {
      var i :| 0 <= i < |ms| && ms[i] == k;
      assert cmds[i] == FlightVia(settings, k, body, name, toRadians, heightOf);
    }
  }

  /** A flight via `k` followed by the flights along `ms` are the flights along `[k] + ms`. */
  lemma FlightsAlongCons(settings: Settings, k: string, ms: seq<string>, body: Body, name: string,
                         toRadians: LngLat -> LngLat, heightOf: LngLat -> real, cmds: seq<FlyCmd>)
    requires k in settings.targets && name in settings.targets[k].LocationMap()
    requires forall i :: 0 <= i < |ms| ==> ms[i] in settings.targets && name in settings.targets[ms[i]].LocationMap()
    requires FlightsAlong(settings, ms, body, name, toRadians, heightOf, cmds)
    ensures FlightsAlong(settings, [k] + ms, body, name, toRadians, heightOf,
                         [FlightVia(settings, k, body, name, toRadians, heightOf)] + cmds)
  {
    var ks := [k] + ms;
    var all := [FlightVia(settings, k, body, name, toRadians, heightOf)] + cmds;
    forall i | 0 <= i < |ks|
      ensures all[i] == FlightVia(settings, ks[i], body, name, toRadians, heightOf)
    {
      if i > 0 {
        assert ks[i] == ms[i - 1] && all[i] == cmds[i - 1];
      }
    }
  }

  /** Splitting off the first key splits the set of matching keys accordingly. */
  lemma MatchCountStep(settings: Settings, anchors: map<string, Anchor>, keys: seq<string>, body: Body, name: string)
    requires |keys| > 0 && NoDuplicates(keys)
    requires forall i :: 0 <= i < |keys| ==> keys[i] in settings.targets && keys[i] in anchors
    ensures NoDuplicates(keys[1..])
    ensures var all := set k | k in keys && FliesVia(settings, anchors, k, body, name);
            var later := set k | k in keys[1..] && FliesVia(settings, anchors, k, body, name);
            |all| == |later| + (if FliesVia(settings, anchors, keys[0], body, name) then 1 else 0)
  {
    var all := set k | k in keys && FliesVia(settings, anchors, k, body, name);
    var later := set k | k in keys[1..] && FliesVia(settings, anchors, k, body, name);
    assert keys == [keys[0]] + keys[1..];
    assert keys[0] !in keys[1..] by {
      forall i | 0 <= i < |keys[1..]|
        ensures keys[1..][i] != keys[0]
      {
        assert keys[1..][i] == keys[i + 1];
      }
    }
    if FliesVia(settings, anchors, keys[0], body, name) {
      assert all == {keys[0]} + later;
    } else {
      assert all == later;
    }
  }

  /** The `fly_to` callback. Registered only after init's target loop succeeded, so every
      target has an anchor; `active` is None when no body is active. */
  function FlyTo(settings: Settings, anchors: map<string, Anchor>, active: Option<Body>, name: string,
                 toRadians: LngLat -> LngLat, heightOf: LngLat -> real): (cmds: seq<FlyCmd>)
    requires AnchorsCover(settings, anchors)
    ensures active.None? ==> cmds == []
    ensures active.Some? ==> |cmds| == |MatchingTargets(settings, anchors, active.value, name)|
    // Every command flies the active body's observer to a matching target's location.
    ensures forall c :: c in cmds ==>
      && active.Some?
      && c.center == active.value.center && c.frame == active.value.frame
      && c.duration == FlightDuration
      && exists k :: k in MatchingTargets(settings, anchors, active.value, name)
           && var location := settings.targets[k].LocationMap()[name];
              c.lngLat == toRadians(LngLat(location.longitude, location.latitude))
              && c.altitude == location.extent + heightOf(c.lngLat)
    // and every matching target gets its command.
    ensures active.Some? ==> forall k :: k in MatchingTargets(settings, anchors, active.value, name) ==>
      FlightTo(active.value, settings.targets[k].LocationMap()[name], toRadians, heightOf) in cmds
    // The commands follow the matching targets in key order, so the last one issued is the
    // largest matching key's.
    ensures active.Some? ==> FlightsInKeyOrder(settings, anchors, active.value, name, toRadians, heightOf, cmds)
  {
    if active.None? then []
    else
      var ks := TargetOrder(settings);
      SortedNoDuplicates(ks);
      var cmds := FlyCommands(settings, anchors, ks, active.value, name, toRadians, heightOf);
      MatchingInOrder(settings, anchors, ks, active.value, name);
      ScanFollowsKeyOrder(settings, anchors, ks, active.value, name, toRadians, heightOf, cmds);
      FlightFields(settings, anchors, active.value, name, toRadians, heightOf, cmds);
      cmds
  }

  /** Scanning the targets in key order meets exactly the matching ones. */
  lemma MatchingInOrder(settings: Settings, anchors: map<string, Anchor>, ks: seq<string>, body: Body, name: string)
    requires AnchorsCover(settings, anchors)
    requires forall k :: k in ks <==> k in settings.targets
    ensures (set k | k in ks && FliesVia(settings, anchors, k, body, name)) == MatchingTargets(settings, anchors, body, name)
  {
  }

  /** Scanning the targets in key order meets the matching ones in key order. */
  lemma MatchingInKeyOrder(settings: Settings, anchors: map<string, Anchor>, body: Body, name: string)
    requires AnchorsCover(settings, anchors)
    ensures MatchingKeys(settings, anchors, TargetOrder(settings), body, name)
      == SortedKeys(MatchingTargets(settings, anchors, body, name))
  {
    var ks := TargetOrder(settings);
    MatchingKeysSorted(settings, anchors, ks, body, name);
    SortedIsSortedKeys(MatchingKeys(settings, anchors, ks, body, name), MatchingTargets(settings, anchors, body, name));
  }

  /** `cmds` are the flights to the matching targets, one per target, in key order. */
  ghost predicate FlightsInKeyOrder(settings: Settings, anchors: map<string, Anchor>, body: Body, name: string,
                                    toRadians: LngLat -> LngLat, heightOf: LngLat -> real, cmds: seq<FlyCmd>)
    requires AnchorsCover(settings, anchors)
  {
    FlightsAlong(settings, SortedKeys(MatchingTargets(settings, anchors, body, name)), body, name, toRadians, heightOf, cmds)
  }

  /** The commands of the key-order scan follow the matching targets in key order. */
  lemma ScanFollowsKeyOrder(settings: Settings, anchors: map<string, Anchor>, ks: seq<string>, body: Body, name: string,
                            toRadians: LngLat -> LngLat, heightOf: LngLat -> real, cmds: seq<FlyCmd>)
    requires AnchorsCover(settings, anchors)
    requires ks == TargetOrder(settings) && NoDuplicates(ks)
    requires cmds == FlyCommands(settings, anchors, ks, body, name, toRadians, heightOf)
    ensures FlightsInKeyOrder(settings, anchors, body, name, toRadians, heightOf, cmds)
  {
    MatchingInKeyOrder(settings, anchors, body, name);
  }

  /** What a command to a matching target's location carries. */
  lemma FlightFields(settings: Settings, anchors: map<string, Anchor>, body: Body, name: string,
                     toRadians: LngLat -> LngLat, heightOf: LngLat -> real, cmds: seq<FlyCmd>)
    requires AnchorsCover(settings, anchors)
    requires forall c :: c in cmds ==>
      exists k :: k in MatchingTargets(settings, anchors, body, name)
        && c == FlightVia(settings, k, body, name, toRadians, heightOf)
    ensures forall c :: c in cmds ==>
      && c.center == body.center && c.frame == body.frame
      && c.duration == FlightDuration
      && exists k :: k in MatchingTargets(settings, anchors, body, name)
           && var location := settings.targets[k].LocationMap()[name];
              c.lngLat == toRadians(LngLat(location.longitude, location.latitude))
              && c.altitude == location.extent + heightOf(c.lngLat)
  {
  }
}
