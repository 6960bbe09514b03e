/**
 * JSON values as the service stores them, the JavaScript `undefined` that
 * callers may pass, and the abstract JSON codec (`JSON.stringify` /
 * `JSON.parse`) the service relies on.
 */
module Json {
  import opened Wrappers

  /** A JSON value. Numbers are modelled as integers. */
  datatype Json =
    | JNull
    | JBool(b: bool)
    | JNum(n: int)
    | JStr(s: string)
    | JArr(items: seq<Json>)
    | JObj(fields: map<string, Json>)

  /** A JavaScript value as the service sees it: `undefined` or a JSON value. */
  datatype JsValue = Undefined | Defined(json: Json)

  /** `set` turns `undefined` into `null` before anything else. */
  function Normalize(v: JsValue): Json
  {
    match v
    case Undefined => JNull
    case Defined(j) => j
  }

  /** JavaScript truthiness of a JSON value: `null`, `false`, `0` and `""` are falsy. */
  predicate Falsy(j: Json)
  {
    j == JNull || j == JBool(false) || j == JNum(0) || j == JStr("")
  }

  /**
   * The JSON codec of the host. Its grammar is not modelled: only the facts
   * the service depends on are, as `RoundTrips` below.
   */
  datatype Codec = Codec(stringify: Json -> string, parse: string -> Option<Json>)

  /**
   * What `JSON.stringify` and `JSON.parse` guarantee for one value: parsing the
   * encoding gives the value back, the encoding is never empty, and it is the
   * text "null" exactly for `null`.
   */
  predicate RoundTrips(c: Codec, j: Json)
  {
    && c.parse(c.stringify(j)) == Some(j)
    && c.stringify(j) != ""
    && (c.stringify(j) == "null" <==> j == JNull)
  }

  /**
   * How `get` turns the raw store entry into a value: an absent entry, the
   * empty string, the text "null" and text that does not parse all read as
   * `null`; anything else reads as what it parses to.
   */
  function ParseItem(c: Codec, item: Option<string>): (j: Json)
    ensures item == None || item == Some("") || item == Some("null") ==> j == JNull
    ensures item.Some? && c.parse(item.value) == None ==> j == JNull
    ensures item.Some? && item.value != "" && item.value != "null" && c.parse(item.value).Some?
            ==> j == c.parse(item.value).value
  {
    if item == None || item == Some("") || item == Some("null") then JNull
    else match c.parse(item.value)
      case None => JNull
      case Some(parsed) => parsed
  }

  /** Reading back the encoding of a value gives the value. */
  lemma ParseItemOfEncoding(c: Codec, j: Json)
    requires RoundTrips(c, j)
    ensures ParseItem(c, Some(c.stringify(j))) == j
  {
  }
}
