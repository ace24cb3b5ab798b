/**
 * Values that arrive in a request payload, and the two pieces of Python
 * semantics the handlers apply to them: truthiness (`if not commitment`)
 * and how a value behaves as a key of a dictionary whose keys are ints
 * (`challenges.get(challenge_id)`).
 */
module Values {

  datatype Option<+T> = None | Some(value: T)

  /** A decoded JSON value; JSON numbers are modelled as integers only. */
  datatype Json =
    | JNull
    | JBool(b: bool)
    | JInt(i: int)
    | JStr(s: string)
    | JArray(items: seq<Json>)
    | JObject(fields: seq<(string, Json)>)

  /** Python's `not v`: null, false, zero and the empty string, list or dict. */
  predicate Falsy(v: Json)
    ensures Falsy(v) <==> v in {JNull, JBool(false), JInt(0), JStr(""), JArray([]), JObject([])}
  {
    match v
    case JNull => true
    case JBool(b) => !b
    case JInt(i) => i == 0
    case JStr(s) => s == ""
    case JArray(items) => items == []
    case JObject(fields) => fields == []
  }

  /** How a value looks up a dictionary keyed by ints. */
  datatype Key =
    | IntKey(id: int)  // compares equal to the int `id` (a bool counts as 0 or 1)
    | OtherKey         // hashable, but equal to no int
    | Unhashable       // a list or dict: the lookup raises TypeError

  function AsIntKey(v: Json): (k: Key)
    ensures k.IntKey? <==> v.JInt? || v.JBool?
    ensures k.Unhashable? <==> v.JArray? || v.JObject?
    ensures v.JInt? ==> k.id == v.i
    ensures v == JBool(false) ==> k == IntKey(0)
    ensures v == JBool(true) ==> k == IntKey(1)
  {
    match v
    case JInt(i) => IntKey(i)
    case JBool(b) => IntKey(if b then 1 else 0)
    case JNull => OtherKey
    case JStr(_) => OtherKey
    case JArray(_) => Unhashable
    case JObject(_) => Unhashable
  }
}
