/**
 * What the side bar shows in its location list as the plugin's calls arrive:
 * `add_location` appends an entry to the `location-tabs-area` container and
 * `clear_container` on that container empties it. Only the list's contents
 * are modelled, not the tabs and markup the JavaScript builds around them.
 *
 * `add_location` finds its group's list through the unescaped selector
 * `#list-location-<group>`, so the entry lands in its group's list only when
 * the group name is a plain CSS identifier (letters, digits, `-`, `_`). Effect
 * describes that case; for other group names the JavaScript may append nothing
 * or throw.
 */
module SideBar {
  import opened PluginSettings
  import opened Plugin

  /** A listed location: its name under its group's tab. */
  datatype Entry = Entry(group: string, name: string)

  /** The effect of one call on the listed entries. */
  function Effect(shown: seq<Entry>, call: GuiCall): seq<Entry> {
    match call
    case ClearContainer(id) => if id == LocationArea then [] else shown
    case AddLocation(group, name) => shown + [Entry(group, name)]
    case _ => shown
  }

  /** The entries listed after the GUI has run `calls`, starting from `shown`. */
  function Run(shown: seq<Entry>, calls: seq<GuiCall>): seq<Entry>
    decreases |calls|
  {
    if calls == [] then shown else Run(Effect(shown, calls[0]), calls[1..])
  }

  /** A run of `add_location` calls appends their entries, in order. */
  lemma {:induction false} RunAppends(shown: seq<Entry>, calls: seq<GuiCall>)
    requires forall i :: 0 <= i < |calls| ==> calls[i].AddLocation?
    ensures |Run(shown, calls)| == |shown| + |calls|
    ensures Run(shown, calls)[..|shown|] == shown
    ensures forall i :: 0 <= i < |calls| ==>
      Run(shown, calls)[|shown| + i] == Entry(calls[i].group, calls[i].name)
    decreases |calls|
  {
    if calls != [] {
      var next := shown + [Entry(calls[0].group, calls[0].name)];
      RunAppends(next, calls[1..]);
      assert Run(shown, calls) == Run(next, calls[1..]);
      forall i | 0 <= i < |calls|
        ensures Run(shown, calls)[|shown| + i] == Entry(calls[i].group, calls[i].name)
      {
        if i > 0 {
          assert calls[1..][i - 1] == calls[i];
        }
      }
    }
  }

  /**
   * After the active-body handler the list holds exactly the locations of the
   * target keyed by the body's center, each once under its own group, whatever
   * was listed before: nothing accumulates across body changes.
   */
  lemma HandlerReplacesList(settings: Settings, body: Body, shown: seq<Entry>)
    ensures var after := Run(shown, OnActiveBody(settings, body));
      var locations := ShownLocations(settings, body.center);
      && after == Run([], OnActiveBody(settings, body))
      && |after| == |locations|
      && (forall e :: e in after ==> e.name in locations && e.group == locations[e.name].group)
      && (forall name :: name in locations ==> Entry(locations[name].group, name) in after)
  {
    HandlerListsLocations(settings, body);
    ClearThenAdd(OnActiveBody(settings, body), ShownLocations(settings, body.center), shown);
  }

  /** Calls that clear the list and then add one entry per location leave exactly those entries. */
  lemma ClearThenAdd(calls: seq<GuiCall>, locations: map<string, Location>, shown: seq<Entry>)
    requires |calls| == 2 + |locations|
    requires calls[0].SetActivePlanet? && calls[1] == ClearContainer(LocationArea)
    requires forall i :: 2 <= i < |calls| ==>
      calls[i].AddLocation? && calls[i].name in locations && calls[i].group == locations[calls[i].name].group
    requires forall name :: name in locations ==> exists i :: 2 <= i < |calls| && calls[i].name == name
    ensures var after := Run(shown, calls);
      && after == Run([], calls)
      && |after| == |locations|
      && (forall e :: e in after ==> e.name in locations && e.group == locations[e.name].group)
      && (forall name :: name in locations ==> Entry(locations[name].group, name) in after)
  {
    ClearForgets(calls, shown);
    ClearForgets(calls, []);
    AddedEntries(calls[2..], locations);
  }

  /** What was listed before a clear of the location list no longer matters. */
  lemma ClearForgets(calls: seq<GuiCall>, shown: seq<Entry>)
    requires |calls| >= 2
    requires calls[0].SetActivePlanet? && calls[1] == ClearContainer(LocationArea)
    ensures Run(shown, calls) == Run([], calls[2..])
  {
    assert Run(shown, calls) == Run(Effect(shown, calls[0]), calls[1..]);
    assert calls[1..][0] == ClearContainer(LocationArea) && calls[1..][1..] == calls[2..];
  }

  /** Adding one entry per location to an empty list lists exactly the locations. */
  lemma AddedEntries(adds: seq<GuiCall>, locations: map<string, Location>)
    requires |adds| == |locations|
    requires forall i :: 0 <= i < |adds| ==>
      adds[i].AddLocation? && adds[i].name in locations && adds[i].group == locations[adds[i].name].group
    requires forall name :: name in locations ==> exists i :: 0 <= i < |adds| && adds[i].name == name
    ensures var after := Run([], adds);
      && |after| == |locations|
      && (forall e :: e in after ==> e.name in locations && e.group == locations[e.name].group)
      && (forall name :: name in locations ==> Entry(locations[name].group, name) in after)
  {
    RunAppends([], adds);
    var after := Run([], adds);
    forall e | e in after
      ensures e.name in locations && e.group == locations[e.name].group
    {
      var i :| 0 <= i < |after| && after[i] == e;
      assert after[0 + i] == Entry(adds[i].group, adds[i].name);
    }
    forall name | name in locations
      ensures Entry(locations[name].group, name) in after
    {
      var i :| 0 <= i < |adds| && adds[i].name == name;
      assert after[0 + i] == Entry(adds[i].group, adds[i].name);
    }
  }

  /** Running the handler twice for the same body lists what running it once does. */
  lemma HandlerIdempotent(settings: Settings, body: Body, shown: seq<Entry>)
    ensures var calls := OnActiveBody(settings, body);
      Run(Run(shown, calls), calls) == Run(shown, calls)
  {
    var calls := OnActiveBody(settings, body);
    HandlerReplacesList(settings, body, shown);
    HandlerReplacesList(settings, body, Run(shown, calls));
  }
}
