/**
 * The JSON values a workflow document carries, with the JavaScript semantics the handlers
 * and the code generator rely on: a missing property is `undefined` (None), `a || b` picks
 * the first truthy operand, and `===` compares primitives by value.
 */
module Json {
  import opened Wrappers

  datatype Value =
    | Null
    | Bool(b: bool)
    | Num(n: int)
    | Str(s: string)
    | Arr(items: seq<Value>)
    | Obj(fields: map<string, Value>)

  /** A node's `parameters` object. */
  type Params = map<string, Value>

  /** Property read `m[key]`: None stands for `undefined`. */
  function Get(m: map<string, Value>, key: string): (r: Option<Value>)
    ensures r.Some? <==> key in m
    ensures r.Some? ==> r.value == m[key]
  {
    if key in m then Some(m[key]) else None
  }

  /** JavaScript truthiness; `undefined`, null, false, 0 and "" are falsy. */
  predicate Truthy(v: Option<Value>) {
    match v
    case None => false
    case Some(Null) => false
    case Some(Bool(b)) => b
    case Some(Num(n)) => n != 0
    case Some(Str(s)) => s != ""
    case Some(Arr(_)) => true
    case Some(Obj(_)) => true
  }

  /** `!p[key]`: the property is missing or holds a falsy value. */
  predicate Missing(p: Params, key: string) {
    !Truthy(Get(p, key))
  }

  /** `a || b`: the first operand when it is truthy, otherwise the second. */
  function Or(a: Option<Value>, b: Option<Value>): (r: Option<Value>)
    ensures Truthy(a) ==> r == a
    ensures !Truthy(a) ==> r == b
  {
    if Truthy(a) then a else b
  }

  /** `a === b` for values parsed from one JSON document: primitives compare by value, while two
      arrays or objects are distinct objects (the caller decides whether both sides are the same
      property of the same node). */
  predicate StrictEquals(a: Option<Value>, b: Option<Value>) {
    match (a, b)
    case (None, None) => true
    case (Some(Null), Some(Null)) => true
    case (Some(Bool(x)), Some(Bool(y))) => x == y
    case (Some(Num(x)), Some(Num(y))) => x == y
    case (Some(Str(x)), Some(Str(y))) => x == y
    case _ => false
  }

  /** How the host renders values that are not strings: `String(v)` inside a template literal
      (`other`) and `JSON.stringify(v)` (`stringify`). Both are left uninterpreted. */
  datatype Render = Render(other: Value -> string, stringify: Value -> string)

  /** A value interpolated into a template literal: a string as itself, an absent value as "undefined". */
  function Interpolate(v: Option<Value>, r: Render): (t: string)
    ensures v == None ==> t == "undefined"
    ensures v.Some? && v.value.Str? ==> t == v.value.s
  {
    match v
    case None => "undefined"
    case Some(Str(s)) => s
    case Some(x) => r.other(x)
  }

  /** The serialised value inside a template literal: an absent value renders as "undefined". */
  function Stringified(v: Option<Value>, r: Render): (t: string)
    ensures v == None ==> t == "undefined"
  {
    match v
    case None => "undefined"
    case Some(x) => r.stringify(x)
  }
}
