/** JSON values, the byte strings the ledger stores, and the rules by which Go's
    encoding/json fills a struct from JSON text. Text is not modelled character
    by character: a byte string that is JSON text is represented by the value it
    parses to, any other byte string by its octets. */
module Json {
  import opened Wrappers
  import opened Errors

  /** A float64, kept as its bit pattern: it is stored and handed back, never
      computed with. */
  datatype Float64 = Float64(bits: bv64)

  /** A float64 JSON can carry: not NaN and not an infinity (whose eleven
      exponent bits are all set). json.Marshal refuses the others. */
  predicate Finite(n: Float64) {
    n.bits & 0x7FF0_0000_0000_0000 != 0x7FF0_0000_0000_0000
  }

  /** A JSON number is held as the float64 its literal denotes; a literal
      beyond float64's range is held as an infinity. */
  datatype Json =
    | JNull
    | JBool(b: bool)
    | JNumber(n: Float64)
    | JString(s: string)
    | JArray(items: seq<Json>)
    | JObject(fields: map<string, Json>)

  /** A byte string: JSON text (by its parse) or octets that are not JSON text. */
  datatype Blob = Text(doc: Json) | Raw(octets: seq<bv8>)

  /** The one-byte value `[]byte{0}` stored under index keys. */
  const Sentinel: Blob := Raw([0])

  /** `len(b) == 0` in Go, `!b || b.length === 0` in TypeScript, for what a
      GetState call returns (nothing, when no value is stored). JSON text is
      never empty. */
  predicate IsEmpty(b: Option<Blob>) {
    b.None? || (b.value.Raw? && b.value.octets == [])
  }

  /** The members of the JSON object that json.Unmarshal fills a struct from:
      `null` leaves the struct at its zero value (no members), text that is not
      JSON and JSON of another kind are errors. */
  function StructMembers(b: Blob): Result<map<string, Json>, Error> {
    match b
    case Raw(_) => Err(Undecodable)
    case Text(JNull) => Ok(map[])
    case Text(JObject(fields)) => Ok(fields)
    case Text(_) => Err(Undecodable)
  }

  /** A `string` struct field: absent or `null` leaves "", a string is taken,
      any other JSON is a type error. */
  function StringMember(fields: map<string, Json>, name: string): Result<string, Error> {
    if name !in fields then Ok("")
    else match fields[name]
      case JNull => Ok("")
      case JString(s) => Ok(s)
      case _ => Err(Undecodable)
  }

  /** A `bool` struct field. */
  function BoolMember(fields: map<string, Json>, name: string): Result<bool, Error> {
    if name !in fields then Ok(false)
    else match fields[name]
      case JNull => Ok(false)
      case JBool(b) => Ok(b)
      case _ => Err(Undecodable)
  }

  /** A `float64` struct field: a number beyond float64's range is an error. */
  function FloatMember(fields: map<string, Json>, name: string): Result<Float64, Error> {
    if name !in fields then Ok(Float64(0))
    else match fields[name]
      case JNull => Ok(Float64(0))
      case JNumber(n) => if Finite(n) then Ok(n) else Err(Undecodable)
      case _ => Err(Undecodable)
  }

  /** A `map[string]string`: `null` gives the empty map, an object whose members
      are all strings or `null` (which gives "") gives the map, anything else is
      a type error. */
  function StringMap(v: Json): Result<map<string, string>, Error> {
    match v
    case JNull => Ok(map[])
    case JObject(g) =>
      if forall k :: k in g ==> g[k].JString? || g[k].JNull? then
        Ok(map k | k in g :: if g[k].JString? then g[k].s else "")
      else
        Err(Undecodable)
    case _ => Err(Undecodable)
  }

  /** A `map[string]string` struct field. */
  function StringMapMember(fields: map<string, Json>, name: string): Result<map<string, string>, Error> {
    if name !in fields then Ok(map[]) else StringMap(fields[name])
  }

  /** json.Marshal of a `map[string]string`. */
  function EncodeStringMap(m: map<string, string>): Json {
    JObject(map k | k in m :: JString(m[k]))
  }

  lemma StringMapRoundTrip(m: map<string, string>)
    ensures StringMap(EncodeStringMap(m)) == Ok(m)
  {
    var g := map k | k in m :: JString(m[k]);
    var back := map k | k in g :: if g[k].JString? then g[k].s else "";
    assert back == m;
  }
}
