/**
 * The part of a JSON document the settings loader looks at. An object is a map
 * from member name to value, as nlohmann::json stores it (a std::map, so its
 * members are visited in key order).
 */
module Json {

  datatype Json =
    | JNull
    | JBool(b: bool)
    | JNumber(num: real)
    | JString(str: string)
    | JArray(items: seq<Json>)
    | JObject(members: map<string, Json>)

  /** The value kinds the loader asks for with `get<T>()`. */
  datatype Kind = NumberKind | StringKind | ObjectKind

  predicate HasKind(j: Json, kind: Kind) {
    match kind
    case NumberKind => j.JNumber?
    case StringKind => j.JString?
    case ObjectKind => j.JObject?
  }

  /** `j` is an object whose member `key` exists and has the given kind. */
  predicate HasField(j: Json, key: string, kind: Kind) {
    j.JObject? && key in j.members && HasKind(j.members[key], kind)
  }
}
