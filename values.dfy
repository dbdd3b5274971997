/**
 * Python values as the scripts see them: parsed JSON, truthiness, numeric
 * coercion and exceptions.
 */
module Values {

  /** A JSON document as Python's `json.load` returns it. */
  datatype Json =
    | JNull
    | JBool(b: bool)
    | JInt(i: int)
    | JFloat(f: real)
    | JStr(s: string)
    | JArray(items: seq<Json>)
    | JObject(fields: map<string, Json>)

  /** Python truthiness: `None`, `False`, zero, `""`, `[]` and `{}` are false. */
  predicate Truthy(v: Json) {
    match v
    case JNull => false
    case JBool(b) => b
    case JInt(i) => i != 0
    case JFloat(f) => f != 0.0
    case JStr(s) => s != []
    case JArray(items) => items != []
    case JObject(fields) => fields != map[]
  }

  /** `d.get(key, default)` on a dict. */
  function GetOr(d: map<string, Json>, key: string, default: Json): Json {
    if key in d then d[key] else default
  }

  datatype Option<+T> = None | Some(value: T)

  /** The outcome of a Python call: a value, or an exception that escaped it. */
  datatype Try<+T> = Ok(value: T) | Raised {
    predicate IsFailure() { Raised? }

    function PropagateFailure<U>(): Try<U>
      requires Raised?
    {
      Raised
    }

    function Extract(): T
      requires Ok?
    {
      value
    }
  }

  /**
   * A value used in a comparison or an addition with a number: `bool`, `int`
   * and `float` take part (`True` counts as 1); anything else raises
   * `TypeError`.
   */
  function AsNumber(v: Json): (r: Try<real>)
    ensures r.Ok? <==> v.JBool? || v.JInt? || v.JFloat?
  {
    match v
    case JBool(b) => Ok(if b then 1.0 else 0.0)
    case JInt(i) => Ok(i as real)
    case JFloat(f) => Ok(f)
    case _ => Raised
  }

  /** What reading `config.json` yields before any key is looked at. */
  datatype ConfigFile =
    | NoFile             // os.path.exists is false
    | Unreadable         // open() or json.load() raised
    | Parsed(doc: Json)  // the file parsed to this document
}
