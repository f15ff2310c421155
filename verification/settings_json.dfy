/**
 * The three `from_json` overloads that build the settings from the plugin's JSON
 * block. Every failure nlohmann::json would throw becomes a ParseError; a map is
 * parsed entry by entry in key order and the first failing entry aborts the
 * whole conversion, so no partially built value is ever returned.
 */
module SettingsJson {
  import opened Wrappers
  import opened Json
  import opened StringOrder
  import opened PluginSettings

  datatype ParseError =
    | KeyNotFound(key: string)   // `at(key)` on an object without that member
    | NotAnObject                // `at(key)` on a value that is not an object
    | WrongType(expected: Kind)  // `get<T>()` on a value of another kind

  /** `j.at(key)`. */
  function At(j: Json, key: string): (r: Result<Json, ParseError>)
    ensures r.Success? <==> j.JObject? && key in j.members
    ensures r.Success? ==> r.value == j.members[key]
    ensures !j.JObject? ==> r == Failure(NotAnObject)
    ensures j.JObject? && key !in j.members ==> r == Failure(KeyNotFound(key))
  {
    if !j.JObject? then Failure(NotAnObject)
    else if key !in j.members then Failure(KeyNotFound(key))
    else Success(j.members[key])
  }

  /** `j.get<double>()`: only a number converts. */
  function GetNumber(j: Json): (r: Result<real, ParseError>)
    ensures r.Success? <==> j.JNumber?
    ensures r.Success? ==> r.value == j.num
    ensures r.Failure? ==> r.error == WrongType(NumberKind)
  {
    if j.JNumber? then Success(j.num) else Failure(WrongType(NumberKind))
  }

  /** `j.get<std::string>()`: only a string converts. */
  function GetString(j: Json): (r: Result<string, ParseError>)
    ensures r.Success? <==> j.JString?
    ensures r.Success? ==> r.value == j.str
    ensures r.Failure? ==> r.error == WrongType(StringKind)
  {
    if j.JString? then Success(j.str) else Failure(WrongType(StringKind))
  }

  /** Converts the members named by `keys`, in that order, stopping at the first failure. */
  function ParseEntries<T>(obj: map<string, Json>, keys: seq<string>, parse: Json -> Result<T, ParseError>)
    : (r: Result<map<string, T>, ParseError>)
    requires forall i :: 0 <= i < |keys| ==> keys[i] in obj
    ensures r.Success? <==> forall i :: 0 <= i < |keys| ==> parse(obj[keys[i]]).Success?
    ensures r.Success? ==> forall k :: k in r.value <==> k in keys
    ensures r.Success? ==> forall k :: k in r.value ==> k in obj && parse(obj[k]) == Success(r.value[k])
    ensures r.Failure? ==>
      exists n :: 0 <= n < |keys| && parse(obj[keys[n]]) == Failure(r.error)
        && forall i :: 0 <= i < n ==> parse(obj[keys[i]]).Success?
    decreases |keys|
  {
    if keys == [] then Success(map[])
    else
      var v :- parse(obj[keys[0]]);
      var rest :- ParseEntries(obj, keys[1..], parse);
      Success(rest[keys[0] := v])
  }

  /** `j.get<std::map<std::string, T>>()`: an object whose every member converts. */
  function ParseMap<T>(j: Json, parse: Json -> Result<T, ParseError>): (r: Result<map<string, T>, ParseError>)
    ensures r.Success? <==> j.JObject? && forall k :: k in j.members ==> parse(j.members[k]).Success?
    ensures r.Success? ==> r.value.Keys == j.members.Keys
    ensures r.Success? ==> forall k :: k in r.value ==> parse(j.members[k]) == Success(r.value[k])
    ensures !j.JObject? ==> r == Failure(WrongType(ObjectKind))
  {
    if !j.JObject? then Failure(WrongType(ObjectKind))
    else
      var keys := SortedKeys(j.members.Keys);
      ParseEntries(j.members, keys, parse)
  }

  /** A failing map conversion reports the error of its first failing member in key order. */
  lemma ParseMapReportsFirstFailure<T>(j: Json, parse: Json -> Result<T, ParseError>)
    requires j.JObject? && ParseMap(j, parse).Failure?
    ensures var e := ParseMap(j, parse).error;
      exists k :: (k in j.members && parse(j.members[k]) == Failure(e)
                   && forall k' :: k' in j.members && Less(k', k) ==> parse(j.members[k']).Success?)
  {
    var keys := SortedKeys(j.members.Keys);
    FirstFailureIsLeast(j.members, keys, parse, ParseEntries(j.members, keys, parse).error);
  }

  lemma FirstFailureIsLeast<T>(obj: map<string, Json>, keys: seq<string>, parse: Json -> Result<T, ParseError>, e: ParseError)
    requires StrictlySorted(keys)
    requires forall k :: k in keys <==> k in obj
    requires exists n :: (0 <= n < |keys| && parse(obj[keys[n]]) == Failure(e)
                          && forall i :: 0 <= i < n ==> parse(obj[keys[i]]).Success?)
    ensures exists k :: (k in obj && parse(obj[k]) == Failure(e)
                         && forall k' :: k' in obj && Less(k', k) ==> parse(obj[k']).Success?)
  {
    var n :| 0 <= n < |keys| && parse(obj[keys[n]]) == Failure(e)
        && forall i :: 0 <= i < n ==> parse(obj[keys[i]]).Success?;
    forall k' | k' in obj && Less(k', keys[n])
      ensures parse(obj[k']).Success?
    {
      var i :| 0 <= i < |keys| && keys[i] == k';
      IndexOrder(keys, i, n);
    }
  }

  /** What `j.at(key).get<T>()` throws on an object whose member `key` is missing or of another kind. */
  function FieldError(j: Json, key: string, kind: Kind): ParseError
    requires j.JObject?
  {
    if key in j.members then WrongType(kind) else KeyNotFound(key)
  }

  /** `from_json(j, Location&)`. */
  function ParseLocation(j: Json): (r: Result<Location, ParseError>)
    ensures r.Success? <==>
      && HasField(j, "latitude", NumberKind)
      && HasField(j, "longitude", NumberKind)
      && HasField(j, "extent", NumberKind)
      && HasField(j, "group", StringKind)
    ensures r.Success? ==>
      && r.value.latitude == j.members["latitude"].num
      && r.value.longitude == j.members["longitude"].num
      && r.value.extent == j.members["extent"].num
      && r.value.group == j.members["group"].str
    // The fields are read in source order; the first one missing or of the wrong kind is reported.
    ensures !j.JObject? ==> r == Failure(NotAnObject)
    ensures j.JObject? && !HasField(j, "latitude", NumberKind) ==> r == Failure(FieldError(j, "latitude", NumberKind))
    ensures HasField(j, "latitude", NumberKind) && !HasField(j, "longitude", NumberKind) ==>
      r == Failure(FieldError(j, "longitude", NumberKind))
    ensures (HasField(j, "latitude", NumberKind) && HasField(j, "longitude", NumberKind)
             && !HasField(j, "extent", NumberKind)) ==>
      r == Failure(FieldError(j, "extent", NumberKind))
    ensures (HasField(j, "latitude", NumberKind) && HasField(j, "longitude", NumberKind)
             && HasField(j, "extent", NumberKind) && !HasField(j, "group", StringKind)) ==>
      r == Failure(FieldError(j, "group", StringKind))
  {
    var latitude :- At(j, "latitude");
    var lat :- GetNumber(latitude);
    var longitude :- At(j, "longitude");
    var lng :- GetNumber(longitude);
    var extent :- At(j, "extent");
    var ext :- GetNumber(extent);
    var group :- At(j, "group");
    var grp :- GetString(group);
    Success(Location(lat, lng, ext, grp))
  }

  /** Every member of a `locations` object converts to a location. */
  predicate LocationsValid(j: Json) {
    j.JObject? && forall name :: name in j.members ==> ParseLocation(j.members[name]).Success?
  }

  /** `from_json(j, Target&)`: `icon` is required, `locations` optional. */
  function ParseTarget(j: Json): (r: Result<Target, ParseError>)
    ensures r.Success? <==>
      && HasField(j, "icon", StringKind)
      && ("locations" in j.members ==> LocationsValid(j.members["locations"]))
    ensures r.Success? ==> r.value.icon == j.members["icon"].str
    ensures r.Success? ==> (r.value.locations.None? <==> "locations" !in j.members)
    ensures r.Success? && r.value.locations.Some? ==>
      && r.value.locations.value.Keys == j.members["locations"].members.Keys
      && forall name :: name in r.value.locations.value ==>
           ParseLocation(j.members["locations"].members[name]) == Success(r.value.locations.value[name])
    ensures !j.JObject? ==> r == Failure(NotAnObject)
    ensures j.JObject? && !HasField(j, "icon", StringKind) ==> r == Failure(FieldError(j, "icon", StringKind))
    // A bad `locations` member fails the target with the error of the map conversion.
    ensures (HasField(j, "icon", StringKind) && "locations" in j.members
             && ParseMap(j.members["locations"], ParseLocation).Failure?) ==>
      r == Failure(ParseMap(j.members["locations"], ParseLocation).error)
  {
    var icon :- At(j, "icon");
    var path :- GetString(icon);
    if "locations" in j.members then
      var locations :- ParseMap(j.members["locations"], ParseLocation);
      Success(Target(path, Some(locations)))
    else
      Success(Target(path, None))
  }

  /** `from_json(j, Settings&)`: `targets` is required and every target must convert. */
  function ParseSettings(j: Json): (r: Result<Settings, ParseError>)
    ensures r.Success? <==>
      && HasField(j, "targets", ObjectKind)
      && forall name :: name in j.members["targets"].members ==>
           ParseTarget(j.members["targets"].members[name]).Success?
    ensures r.Success? ==>
      && r.value.targets.Keys == j.members["targets"].members.Keys
      && forall name :: name in r.value.targets ==>
           ParseTarget(j.members["targets"].members[name]) == Success(r.value.targets[name])
    ensures !j.JObject? ==> r == Failure(NotAnObject)
    ensures j.JObject? && !HasField(j, "targets", ObjectKind) ==> r == Failure(FieldError(j, "targets", ObjectKind))
    // A bad target fails the settings with the error of the map conversion.
    ensures HasField(j, "targets", ObjectKind) && ParseMap(j.members["targets"], ParseTarget).Failure? ==>
      r == Failure(ParseMap(j.members["targets"], ParseTarget).error)
  {
    var targets :- At(j, "targets");
    var parsed :- ParseMap(targets, ParseTarget);
    Success(Settings(parsed))
  }
}
