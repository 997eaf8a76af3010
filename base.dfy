/**
 * Values shared by the notifier's components: optional values (Python's
 * `None`), results with an error (a raised exception), and the JSON values
 * that the dedupe state file and the seen records are made of.
 */
module Base {

  /** A value that may be missing; `None` stands for Python's `None`. */
  datatype Option<+T> = None | Some(value: T)

  /** The outcome of an operation that the source lets raise. */
  datatype Result<+T, +E> = Ok(value: T) | Err(error: E)

  /** A parsed JSON document (numbers are integers here). */
  datatype Json =
    | JNull
    | JBool(b: bool)
    | JInt(n: int)
    | JStr(s: string)
    | JList(items: seq<Json>)
    | JObject(fields: map<string, Json>)

  /** How an optional string is written into JSON: `None` becomes `null`. */
  function OptStrJson(v: Option<string>): Json {
    match v
    case None => JNull
    case Some(s) => JStr(s)
  }

  /** How an optional integer is written into JSON: `None` becomes `null`. */
  function OptIntJson(v: Option<int>): Json {
    match v
    case None => JNull
    case Some(n) => JInt(n)
  }
}
