/** The plugin's configuration: targets (celestial bodies) holding named locations. */
module PluginSettings {
  import opened Wrappers

  /** A point of interest. Latitude and longitude are in degrees, the extent in meters;
      no range is enforced on any of them. */
  datatype Location = Location(latitude: real, longitude: real, extent: real, group: string)

  /** A celestial body that can be travelled to. `locations` is optional: a target
      configured without a `locations` member has None, which differs from Some(map[]). */
  datatype Target = Target(icon: string, locations: Option<map<string, Location>>) {

    /** The locations as the plugin uses them: an absent location set reads as empty. */
    function LocationMap(): (m: map<string, Location>)
      ensures locations.None? ==> m == map[]
      ensures locations.Some? ==> m == locations.value
    {
      locations.GetOr(map[])
    }
  }

  /** Targets keyed by anchor name; a map, so every anchor name occurs at most once. */
  datatype Settings = Settings(targets: map<string, Target>)
}
