/**
 * The inverse of the settings loader: the JSON block a Settings value is read from.
 * Reading it back gives the same value, so the loader loses nothing it is given
 * and keeps "no locations member" apart from "an empty locations object".
 */
module SettingsEncoding {
  import opened Wrappers
  import opened Json
  import opened PluginSettings
  import opened SettingsJson

  function EncodeLocation(l: Location): Json {
    JObject(map["latitude" := JNumber(l.latitude), "longitude" := JNumber(l.longitude),
                "extent" := JNumber(l.extent), "group" := JString(l.group)])
  }

  function EncodeLocations(locations: map<string, Location>): Json {
    JObject(map name | name in locations :: EncodeLocation(locations[name]))
  }

  function EncodeTarget(t: Target): Json {
    match t.locations
    case None => JObject(map["icon" := JString(t.icon)])
    case Some(locations) => JObject(map["icon" := JString(t.icon), "locations" := EncodeLocations(locations)])
  }

  function EncodeSettings(s: Settings): Json {
    JObject(map["targets" := JObject(map name | name in s.targets :: EncodeTarget(s.targets[name]))])
  }

  lemma LocationRoundTrip(l: Location)
    ensures ParseLocation(EncodeLocation(l)) == Success(l)
  {
  }

  /** A map whose every member reads as the corresponding entry of `m` reads as `m`. */
  lemma ParseMapOf<T>(j: Json, parse: Json -> Result<T, ParseError>, m: map<string, T>)
    requires j.JObject? && j.members.Keys == m.Keys
    requires forall k :: k in m ==> parse(j.members[k]) == Success(m[k])
    ensures ParseMap(j, parse) == Success(m)
  {
    var r := ParseMap(j, parse);
    assert r.Success?;
    forall k | k in m
      ensures k in r.value && r.value[k] == m[k]
    {
      assert parse(j.members[k]) == Success(r.value[k]);
    }
    assert r.value == m;
  }

  lemma {:induction false} LocationsRoundTrip(locations: map<string, Location>)
    ensures ParseMap(EncodeLocations(locations), ParseLocation) == Success(locations)
  {
    var j := EncodeLocations(locations);
    forall name | name in locations
      ensures ParseLocation(j.members[name]) == Success(locations[name])
    {
      LocationRoundTrip(locations[name]);
    }
    ParseMapOf(j, ParseLocation, locations);
  }

  lemma {:induction false} TargetRoundTrip(t: Target)
    ensures ParseTarget(EncodeTarget(t)) == Success(t)
  {
    var j := EncodeTarget(t);
    if t.locations.Some? {
      LocationsRoundTrip(t.locations.value);
      assert LocationsValid(j.members["locations"]);
      var r := ParseTarget(j);
      assert r.value.locations.value == t.locations.value;
    }
  }

  /** Reading back an encoded configuration yields it unchanged. */
  lemma {:induction false} SettingsRoundTrip(s: Settings)
    ensures ParseSettings(EncodeSettings(s)) == Success(s)
  {
    var targets := EncodeSettings(s).members["targets"];
    forall name | name in s.targets
      ensures ParseTarget(targets.members[name]) == Success(s.targets[name])
    {
      TargetRoundTrip(s.targets[name]);
    }
    ParseMapOf(targets, ParseTarget, s.targets);
  }
}
