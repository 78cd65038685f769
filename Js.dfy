/** The JavaScript values the frontend rules compare and merge: scalar JSON
    values, plain objects as maps from property name to value, `undefined` as
    an absent property, truthiness, `||` and object spread. */
module Js {
  import opened Wrappers
  import opened Text

  /** A scalar JSON value; numbers are the integers the backend sends. */
  datatype Json = JNull | JBool(b: bool) | JNum(n: int) | JStr(s: string)

  /** A plain object; a key that is not present reads as `undefined`. */
  type Obj = map<string, Json>

  /** `o.key`, with `None` for `undefined`. */
  function Get(o: Obj, key: string): Option<Json> {
    if key in o then Some(o[key]) else None
  }

  /** JavaScript truthiness; `undefined` (None), `null`, `false`, `0` and `''`
      are falsy. */
  predicate Truthy(v: Option<Json>) {
    match v
    case None => false
    case Some(JNull) => false
    case Some(JBool(b)) => b
    case Some(JNum(n)) => n != 0
    case Some(JStr(s)) => s != ""
  }

  /** `v || fallback`: the value itself when truthy, otherwise the fallback. */
  function OrElse(v: Option<Json>, fallback: Json): (r: Json)
    ensures Truthy(v) ==> Some(r) == v
    ensures !Truthy(v) ==> r == fallback
  {
    if Truthy(v) then v.value else fallback
  }

  /** `{...a, ...b}`: every property of `b`, and the properties of `a` that
      `b` does not have. */
  function Spread(a: Obj, b: Obj): (r: Obj)
    ensures r.Keys == a.Keys + b.Keys
    ensures forall k :: k in b ==> r[k] == b[k]
    ensures forall k :: k in a && k !in b ==> r[k] == a[k]
  {
    a + b
  }

  /** `String(v)`, as a template literal converts a scalar: numbers in
      decimal, strings as they are. */
  function ToText(v: Option<Json>): (r: string)
    ensures v.Some? && v.value.JNum? ==> r == IntToString(v.value.n)
    ensures v.Some? && v.value.JStr? ==> r == v.value.s
  {
    match v
    case None => "undefined"
    case Some(JNull) => "null"
    case Some(JBool(b)) => if b then "true" else "false"
    case Some(JNum(n)) => IntToString(n)
    case Some(JStr(s)) => s
  }

  /** A route parameter as a JavaScript value: a string, or `undefined`. */
  function ParamValue(param: Option<string>): (r: Option<Json>)
    ensures r.None? <==> param.None?
    ensures param.Some? ==> r == Some(JStr(param.value))
  {
    if param.Some? then Some(JStr(param.value)) else None
  }
}
