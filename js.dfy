/** The few JavaScript value semantics the client code relies on: truthiness and the `||` fallback. */
module Js {
  import opened Wrappers

  /** A JavaScript value as the hooks see it. Numbers are integers (NaN is not modelled);
      an object or array is an opaque reference, which is always truthy. */
  datatype JsValue = Undefined | Null | Bool(b: bool) | Number(n: int) | Str(s: string) | Object(ref: nat)

  /** JavaScript truthiness: `false`, `0`, `''`, `null` and `undefined` are falsy. */
  predicate Truthy(v: JsValue)
  {
    match v
    case Undefined => false
    case Null => false
    case Bool(b) => b
    case Number(n) => n != 0
    case Str(s) => s != []
    case Object(_) => true
  }

  /** An optional string as the JavaScript value it stands for. */
  function OfOption(v: Option<string>): (r: JsValue)
    ensures r.Str? <==> v.Some?
    ensures r.Str? ==> r.s == v.value
    ensures Truthy(r) <==> v.Some? && v.value != []
  {
    match v
    case None => Undefined
    case Some(s) => Str(s)
  }

  /** `v || fallback` for an optional string: the fallback replaces `undefined` and `''`. */
  function OrElse(v: Option<string>, fallback: string): (r: string)
    ensures v.Some? && v.value != [] ==> r == v.value
    ensures v == None || v == Some([]) ==> r == fallback
  {
    if v.Some? && v.value != [] then v.value else fallback
  }

  /** `v || undefined` for an optional string: `''` becomes `undefined`, anything else is kept. */
  function NonEmpty(v: Option<string>): (r: Option<string>)
    ensures r.Some? <==> v.Some? && v.value != []
    ensures r.Some? ==> r == v
  {
    if v.Some? && v.value != [] then v else None
  }
}
