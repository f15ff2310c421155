# Fly-to-locations plugin: configuration and dispatch

This project models the configuration and dispatch logic of the CosmoScout VR plugin
`csp-fly-to-locations` and proves properties of it in Dafny. The plugin lets a user pick a named
location (a city, a crater) of a celestial body and flies the observer there. It has four
pieces:

- the **settings loader**, the `from_json` overloads that read the plugin's JSON block into
  `Settings` → `Target` → `Location` (`settings_json.dfy`);
- the **target/anchor check of `Plugin::init`**, which throws for a target whose name is not
  an anchor and otherwise sends one `add_celestial_body` call per target (`plugin.dfy`,
  `Init`);
- the **active-body handler**, which sends `set_active_planet` and `clear_container`, then one
  `add_location(group, name)` per location of the target keyed by the body's center name
  (`OnActiveBody`);
- the **`fly_to` callback**, which scans all targets whose anchor's center is the active body's
  and issues a `flyObserverTo` command for each one that has the requested location (`FlyTo`).

Everything is a pure function. GUI calls become a sequence of `GuiCall` values. Camera
commands become a sequence of `FlyCmd` values. The host's degree-to-radian conversion and
terrain height are parameters (`toRadians`, `heightOf`), so altitude `extent + height` is stated
symbolically over `real`. `std::map` visits its keys in `std::string` order. Several
promises depend on that order ("one call per target, in key order"), so `StringOrder.SortedKeys`
models it: the keys in strictly increasing lexicographic order of character codes. That is
how `std::char_traits<char>` compares UTF-8 bytes, and UTF-8 byte order agrees with code
point order.

Modules: `Wrappers` (Option/Result), `StringOrder` (the key order), `Json` (the input tree),
`PluginSettings` (the datatypes of `Plugin.hpp`), `SettingsJson` (the loader),
`SettingsEncoding` (its inverse and the round trip), `Plugin` (init, handler, `fly_to`),
`SideBar` (what the location list shows as calls arrive), `Lookups` (how the handler's lookup
and the `fly_to` lookup relate) and `Scenario` (one configuration from loading to flying).

Decisions where the code is unusual:

- `mLocations` is declared `std::optional<std::map<…>>` (src/Plugin.hpp:47). The handler and
  `fly_to` use it as a plain map (src/Plugin.cpp:93-95, 110). The model keeps it as
  `Option<map>`, so "no `locations` member" and "an empty `locations` object" stay different.
  At the use sites `Target.LocationMap()` reads `None` as the empty map.
- The handler finds the target whose *key* equals the body's center name
  (src/Plugin.cpp:89-90). `fly_to` finds targets whose *anchor's center* equals it
  (src/Plugin.cpp:107-109). Both rules are modelled as written. `Lookups` proves that they agree
  when every anchor is centered on its own name, and exhibits a configuration where they
  differ.
- The target loop of `fly_to` has no `break`, so several matching targets give several
  commands (`Lookups.SharedCenterFliesTwice`).
- `fly_to` dereferences the anchor lookup without checking it (src/Plugin.cpp:108-109). The
  callback exists only after init's loop has succeeded, and `Init` succeeds exactly when every
  target has an anchor. `FlyTo` therefore requires `AnchorsCover`.
- An `Init` failure carries the `add_celestial_body` calls already sent before the exception
  (`InitError.sent`), because those calls have already reached the GUI.
- The handler runs only when the active body changes (src/Plugin.cpp:82); init does not run
  it once for the body already active. `fly_to` issues the camera command and nothing else
  (src/Plugin.cpp:115-117). The plugin has no minimap setting.
- `fly_to` scans the targets in key order and does not stop at the first match, so the
  order of its commands decides where the observer ends up. `FlyTo` states that order.

## Model

| member | source | states |
|---|---|---|
| `SettingsJson.ParseLocation` | src/Plugin.cpp:34-39 | A location is read if and only if `latitude`, `longitude` and `extent` are numbers and `group` is a string. The four values are copied unchanged, with no range check. A non-object gives NotAnObject. Otherwise the fields are read in the order `latitude`, `longitude`, `extent`, `group`. The first one that fails gives KeyNotFound(its key) when it is missing, or WrongType(its kind) when it has another kind. |
| `SettingsJson.ParseTarget` | src/Plugin.cpp:43-50 | A target is read if and only if `icon` is a string and, when a `locations` member exists, it is an object whose every member is a valid location. `locations` is None exactly when the member is absent. When present, it has the same names, each read by ParseLocation. A non-object gives NotAnObject. A missing `icon` gives KeyNotFound("icon"), and a non-string one gives WrongType(StringKind). A bad `locations` member fails the target with ParseMap's error for it. |
| `SettingsJson.ParseSettings` | src/Plugin.cpp:54-56 | Settings are read if and only if `targets` is an object whose every member is a valid target. The result has exactly those target names, each read by ParseTarget. One bad target fails the whole read with ParseMap's error, so no partial Settings is returned. A non-object gives NotAnObject. A missing `targets` gives KeyNotFound("targets"), and a non-object one gives WrongType(ObjectKind). |
| `SettingsJson.ParseMap` | src/Plugin.cpp:48 | `get<std::map<std::string, T>>()` succeeds if and only if the value is an object whose every member converts. The result has the object's keys, each mapped to its member's converted value. A non-object gives WrongType(ObjectKind). |
| `SettingsJson.ParseEntries` | src/Plugin.cpp:55 | Converting members one by one in a given order succeeds if and only if every one converts. On failure the error is that of the first failing member, and every member before it converted. |
| `SettingsJson.ParseMapReportsFirstFailure` | src/Plugin.cpp:55 | When a map conversion fails, the error is that of the failing member with the smallest key: every member with a smaller key converts. |
| `SettingsEncoding.SettingsRoundTrip` | src/Plugin.cpp:34-56 | Reading back the JSON encoding of any Settings value yields that value unchanged. The loader loses nothing and adds nothing. |
| `SettingsEncoding.TargetRoundTrip` | src/Plugin.hpp:46-47 | Reading back an encoded target gives it back unchanged, including whether its location set is absent or present-but-empty. |
| `StringOrder.SortedKeys` | src/Plugin.hpp:50 | The keys of a string-keyed map in `std::map` iteration order: strictly increasing under `std::string` comparison, each key exactly once, and nothing else. |
| `StringOrder.SortedUnique` | src/Plugin.hpp:50 | Two strictly increasing key sequences with the same elements are equal. So the iteration order of a `std::map` is fixed by its key set, and any strictly increasing listing of the keys is that order. |
| `Plugin.Init` | src/Plugin.cpp:70-80 | Init succeeds if and only if every target key is an anchor. On success it sends exactly one `add_celestial_body(anchor.center, target.icon)` per target, in key order. On failure the named target exists and has no anchor. Success is the precondition `fly_to` relies on, so its anchor lookup never reaches the map's end. |
| `Plugin.InitStopsAtFirstMissingAnchor` | src/Plugin.cpp:70-76 | A failing init names the smallest target without an anchor. Before throwing, it has sent the calls of exactly the targets ahead of that one, in key order. |
| `Plugin.RegisterTargets` | src/Plugin.cpp:70-80 | The loop over a key sequence succeeds if and only if every key has an anchor, producing one call per key in order. Otherwise it stops at the first key without an anchor, having produced the calls for the keys before it. |
| `Plugin.OnActiveBody` | src/Plugin.cpp:82-99 | For body B the handler sends `set_active_planet(B.center, B.frame)` to the header bar, then `clear_container("location-tabs-area")` to the side bar, then one call per location of the target keyed by B.center. There are only those two calls when no target has that key. |
| `Plugin.HandlerListsLocations` | src/Plugin.cpp:89-97 | After the two fixed calls, every call is an `add_location` whose name is a location key of the target keyed by B.center, with that location's group. Every location key of that target is listed. |
| `Plugin.HandlerKeyOrder` | src/Plugin.cpp:95-97 | The handler's `add_location` names are strictly increasing in key order. |
| `Plugin.LocationCalls` | src/Plugin.cpp:93-97 | Listing a location map gives one `add_location` per location with its own group. The listed names are exactly the map's keys, strictly increasing. |
| `Plugin.FlyTo` | src/Plugin.cpp:101-121 | With no active body, `fly_to` issues nothing. Otherwise it issues exactly one command per target whose anchor's center is the active center and whose locations contain the name. Each command carries the active center and frame, the radians of the location's (longitude, latitude), altitude `extent + height` at that point, and duration 5.0. Every matching target gets its command. The commands come in the key order of their targets: command i flies via the i-th matching target in key order, so the last command is the one via the largest matching key. |
| `Plugin.FlyCommands` | src/Plugin.cpp:107-120 | Scanning a duplicate-free key sequence issues one command per matching key, with no `break`, in the order of the scan: command i flies via the i-th matching key of the sequence. Every command is the flight to a matching key's location, and every matching key's flight is issued. |
| `Plugin.MatchingKeysSorted` | src/Plugin.cpp:107 | The matching keys met while scanning the targets in key order are themselves in strictly increasing key order. |
| `SideBar.RunAppends` | gui/js/fly-to-locations-tab.js:1-41 | A run of `add_location` calls appends one (group, name) entry per call to the location list, in call order, and keeps what was listed before. This holds for group names the id selector accepts (see Left out). |
| `SideBar.HandlerReplacesList` | src/Plugin.cpp:87-97 | After the handler, the location list holds exactly the locations of the target keyed by the body's center, each under its own group and one entry per location. The result is the same whatever was listed before. This holds for group names the id selector accepts (see Left out). |
| `SideBar.HandlerIdempotent` | src/Plugin.cpp:82-99 | Running the handler twice for the same body leaves the same location list as running it once, so nothing accumulates across invocations. |
| `Lookups.LookupsAgree` | src/Plugin.cpp:107-111 | When every anchor is centered on its own name, `fly_to(name)` issues exactly one flight, to the listed location, if the handler lists `name` for the active body. Otherwise it issues none, so an unknown name issues nothing. |
| `Lookups.NoFlightIffNoHolder` | src/Plugin.cpp:107-111 | For any configuration, `fly_to(name)` issues nothing if and only if no target anchored at the active body's center holds `name`. The target keys play no part. |
| `Lookups.AtMostOneFlight` | src/Plugin.cpp:107-120 | When no two targets' anchors share a center, `fly_to` issues at most one command. |
| `Lookups.LookupsDiffer` | src/Plugin.cpp:89-90 | If target "Moon" is anchored at center "MOON", activating "MOON" lists no locations, but `fly_to("Tycho")` still flies to Tycho: the two lookups differ. |
| `Lookups.SharedCenterFliesTwice` | src/Plugin.cpp:107-120 | Targets "Earth" and "EarthNight" are both anchored at center "Earth" and hold "Berlin" at different extents. One `fly_to("Berlin")` then gives exactly two commands: first the flight via "Earth", then the one via "EarthNight". The observer therefore ends its flight at the "EarthNight" location. |
| `Scenario.BerlinScenario` | src/Plugin.cpp:34-121 | The Earth/Berlin configuration loads. Init sends `add_celestial_body("Earth", "x")`. Activating Earth lists Berlin under "Cities". `fly_to("Berlin")` issues one flight to `1000 + height` with duration 5.0. `fly_to("Paris")`, or `fly_to` with no active body, issues none. |
| `Scenario.UnknownNameNoFlight` | src/Plugin.cpp:110-111 | In the Earth/Berlin configuration with the Earth active, `fly_to("Paris")` issues no command. It is an instance of `Lookups.NoFlightIffNoHolder`. |

## Left out

- The `create`/`destroy` exports (src/Plugin.cpp:18-26) and the start-up log line (src/Plugin.cpp:61): ABI plumbing and console output.
- Fetching the plugin's block from the host settings (src/Plugin.cpp:63): `ParseSettings` starts from that block, and the anchors are a parameter of `Init` and `FlyTo`.
- Registering the side-bar tab and script (src/Plugin.cpp:65-68), registering the `fly_to` callback and unregistering it in `deInit` (src/Plugin.cpp:101, 126-128): host GUI plumbing. The `onChange` connection is never disconnected, and `mActiveBodyConnection` (src/Plugin.hpp:59) is unused. The model has no lifetime state to reflect either fact.
- Degree-to-radian conversion and terrain height (src/Plugin.cpp:112-114): host utilities on doubles. They are the `toRadians` and `heightOf` parameters, so the degrees/radians round trip is not stated. Floating-point rounding is not modelled: coordinates, extent and altitude are `real`.
- The handler with a null body: the code dereferences `body` without a check (src/Plugin.cpp:84-85). `Body` is always a present value. The handler looks up `pActiveBody.get()` rather than its argument (src/Plugin.cpp:90); the two are the same body when the property notifies, and the model uses the argument.
- `FlyTo` with a target that has no anchor: undefined behaviour in the code (src/Plugin.cpp:108-109). It is excluded by `FlyTo`'s precondition, which a successful `Init` establishes.
- JSON parsing itself and nlohmann's number subtypes: the input is already a `Json` tree, and integer, unsigned and float numbers are one `JNumber(real)`. Error messages are reduced to their kind and key.
- The JavaScript side (gui/js/): HTML templating, tabs and the bookmark API, including the empty `removeBookmark` stub (gui/js/csp-fly-to-locations.js:53-55). `SideBar` models only which entries the location list holds. The `clear_container` JavaScript function is not part of this model; it is assumed to empty the named container.
- SideBar.RunAppends: assumes that every `add_location` call shows its entry in its group's list. The JavaScript looks that list up with the unescaped selector `'#list-location-' + group` (gui/js/fly-to-locations-tab.js:2-3, 13, 40). A group name with a space or another selector character, such as "Landing Sites", makes the lookup miss. The call then creates an empty tab and appends nothing, or the selector throws. The model promises the appended entries only for group names made of letters, digits, `-` and `_`.
- SideBar.HandlerReplacesList: rests on the same assumption. For a group name the selector does not accept, the JavaScript may list fewer entries than the handler sends.
