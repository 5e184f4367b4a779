/**
 * JSON at the value level, with the handful of `org.json` accessors the app
 * calls. The text syntax is not modelled: a text is either a document the
 * JSON reader accepts (standing for the value it denotes) or one it rejects.
 */
module Json {
  import opened Optional
  import opened KotlinText

  /** A JSON value; numbers are the integral ones, the only kind the app writes or reads. */
  datatype Value =
    | Null
    | Bool(b: bool)
    | Number(n: int)
    | Str(s: string)
    | Array(items: seq<Value>)
    | Object(fields: map<string, Value>)

  /** A text as the JSON reader sees it. */
  datatype Text = Document(value: Value) | Malformed(raw: string)

  /** `JSONArray(text)`: fails unless the text is a JSON array. */
  function ReadArray(t: Text): (r: Option<seq<Value>>)
    ensures r.Some? <==> t.Document? && t.value.Array?
    ensures r.Some? ==> t.value.items == r.value
  {
    match t
    case Document(Array(items)) => Some(items)
    case _ => None
  }

  /** `JSONObject(text)`: fails unless the text is a JSON object. */
  function ReadObject(t: Text): (r: Option<map<string, Value>>)
    ensures r.Some? <==> t.Document? && t.value.Object?
    ensures r.Some? ==> t.value.fields == r.value
  {
    match t
    case Document(Object(fields)) => Some(fields)
    case _ => None
  }

  /** `getJSONObject(i)` on an array element: fails unless it is an object. */
  function AsObject(v: Value): (r: Option<map<string, Value>>)
    ensures r.Some? <==> v.Object?
    ensures r.Some? ==> r.value == v.fields
  {
    match v
    case Object(fields) => Some(fields)
    case _ => None
  }

  /** `getJSONArray(name)`: fails unless the member exists and is an array. */
  function GetArray(fields: map<string, Value>, name: string): (r: Option<seq<Value>>)
    ensures r.Some? <==> name in fields && fields[name].Array?
    ensures r.Some? ==> fields[name] == Array(r.value)
  {
    if name in fields && fields[name].Array? then Some(fields[name].items) else None
  }

  /** `getInt(name)`: fails unless the member exists and is a number that fits an `Int`. */
  function GetInt(fields: map<string, Value>, name: string): (r: Option<Int32>)
    ensures r.Some? ==> name in fields && fields[name] == Number(r.value as int)
    ensures (name in fields && fields[name].Number? &&
             -0x8000_0000 <= fields[name].n < 0x8000_0000) ==> r.Some?
  {
    if name in fields && fields[name].Number? && -0x8000_0000 <= fields[name].n < 0x8000_0000
    then Some(fields[name].n as Int32)
    else None
  }

  /** `getLong(name)`: fails unless the member exists and is a number that fits a `Long`. */
  function GetLong(fields: map<string, Value>, name: string): (r: Option<Int64>)
    ensures r.Some? ==> name in fields && fields[name] == Number(r.value as int)
    ensures (name in fields && fields[name].Number? &&
             -0x8000_0000_0000_0000 <= fields[name].n < 0x8000_0000_0000_0000) ==> r.Some?
  {
    if name in fields && fields[name].Number? &&
       -0x8000_0000_0000_0000 <= fields[name].n < 0x8000_0000_0000_0000
    then Some(fields[name].n as Int64)
    else None
  }
}
