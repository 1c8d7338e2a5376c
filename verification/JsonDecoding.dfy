/** Decoding of JSON members into Go fields: an absent or null member leaves the zero value. */
module JsonDecoding {
  import opened Wrappers
  import opened Text
  import opened JsonPatch
  import opened StringMaps

  /** A string member: empty when absent or null, `None` when it is something else. */
  function DecodeString(json: Option<Json>): Option<string> {
    match json
    case None => Some("")
    case Some(Null) => Some("")
    case Some(Str(s)) => Some(s)
    case Some(_) => None
  }

  predicate IsInt32(n: int) {
    -MAX_INT32 - 1 <= n <= MAX_INT32
  }

  /** A pointer to an int32: nil when absent or null. */
  function DecodeOptionalInt(json: Option<Json>): Option<Option<int>> {
    match json
    case None => Some(None)
    case Some(Null) => Some(None)
    case Some(Num(n)) => if IsInt32(n) then Some(Some(n)) else None
    case Some(_) => None
  }

  function DecodeInt(json: Option<Json>): Option<int> {
    match DecodeOptionalInt(json)
    case None => None
    case Some(None) => Some(0)
    case Some(Some(n)) => Some(n)
  }

  predicate AreStrings(members: map<string, Json>) {
    forall key | key in members :: DecodeString(Some(members[key])).Some?
  }

  function StringsOf(members: map<string, Json>): StringMap
    requires AreStrings(members)
  {
    map key | key in members :: DecodeString(Some(members[key])).value
  }

  /** A map of strings: empty when absent or null. */
  function DecodeStringMap(json: Option<Json>): Option<StringMap> {
    match json
    case None => Some(map[])
    case Some(Null) => Some(map[])
    case Some(Obj(m)) => if AreStrings(m) then Some(StringsOf(m)) else None
    case Some(_) => None
  }

  lemma DecodeEncoded(m: StringMap)
    ensures DecodeStringMap(Some(ToJson(m))) == Some(m)
  {
    assert StringsOf(ToJson(m).members) == m;
  }

  lemma DecodePut(members: map<string, Json>, decoded: StringMap, key: string, s: string)
    requires DecodeStringMap(Some(Obj(members))) == Some(decoded)
    ensures DecodeStringMap(Some(Obj(members[key := Str(s)]))) == Some(decoded[key := s])
  {
    assert StringsOf(members[key := Str(s)]) == StringsOf(members)[key := s];
  }

  /** There is an object at the place, and it decodes to the map; null members count as empty strings. */
  predicate HoldsMap(doc: Json, place: seq<string>, m: StringMap) {
    IsObjectAt(doc, place) && DecodeStringMap(At(doc, place)) == Some(m)
  }

  lemma AddToMap(doc: Json, place: seq<string>, m: StringMap, key: string, s: string)
    requires HoldsMap(doc, place, m)
    ensures EditValue(ADD, Str(s), doc, place + [key]).Some?
    ensures HoldsMap(EditValue(ADD, Str(s), doc, place + [key]).value, place, m[key := s])
  {
    AddInParent(doc, place, key, Str(s));
    DecodePut(At(doc, place).value.members, m, key, s);
  }

  /** Which members decode to an integer of 32 bits, and to which. */
  lemma DecodeIntExactly(json: Option<Json>)
    ensures DecodeInt(json).Some? <==>
              json.None? || json.value.Null? || (json.value.Num? && -2147483648 <= json.value.n <= 2147483647)
    ensures DecodeInt(json).Some? ==>
              DecodeInt(json).value == if json.None? || json.value.Null? then 0 else json.value.n
  {
  }

  /** Which members decode to a string, and to which. */
  lemma DecodeStringExactly(json: Option<Json>)
    ensures DecodeString(json).Some? <==> json.None? || json.value.Null? || json.value.Str?
    ensures DecodeString(json).Some? ==>
              DecodeString(json).value == if json.None? || json.value.Null? then "" else json.value.s
  {
  }
}
