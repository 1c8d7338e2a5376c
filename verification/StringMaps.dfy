/** Labels and annotations: Go maps from strings to strings, and their JSON. */
module StringMaps {
  import opened JsonPatch

  type StringMap = map<string, string>

  /** Reading a Go map: the empty string for a missing key. */
  function Lookup(m: StringMap, key: string): string {
    if key in m then m[key] else ""
  }

  function ToJson(m: StringMap): Json {
    Obj(map key | key in m :: Str(m[key]))
  }
}
