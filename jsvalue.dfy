/** The few JavaScript value semantics the relay service relies on:
    the primitive values a JSON request body can carry, truthiness,
    the `||` operator and strict equality `===` / `!==`. */
module JsValue {

  /** A JSON-carried value as seen by the handlers, or `undefined`
      (Missing) when a property is absent. Numbers are integers here; an
      object or array is opaque and known only by its reference `ref`. */
  datatype Val = Str(s: string) | Num(n: int) | Bool(b: bool) | Null | Missing | Obj(ref: nat)

  /** JavaScript truthiness: the empty string, 0, false, null and
      undefined are falsy; everything else, objects and arrays included
      (even `[]` and `{}`), is truthy. */
  predicate Truthy(v: Val)
    ensures Truthy(v) <==> v !in {Str(""), Num(0), Bool(false), Null, Missing}
  {
    match v
    case Str(s) => s != []
    case Num(n) => n != 0
    case Bool(b) => b
    case Null => false
    case Missing => false
    case Obj(_) => true
  }

  /** `a || b`: the left operand when it is truthy, otherwise the right one. */
  function Or(a: Val, b: Val): (r: Val)
    ensures r == a || r == b
    ensures Truthy(a) ==> r == a
    ensures !Truthy(a) ==> r == b
    ensures Truthy(r) <==> Truthy(a) || Truthy(b)
  {
    if Truthy(a) then a else b
  }

  /** `a === b`: primitives are equal when of the same type and value, with
      no coercion (so `1 === "1"` is false, and `undefined === undefined` is
      true); objects are equal only when they are the same reference. */
  predicate StrictEquals(a: Val, b: Val)
    ensures StrictEquals(a, b) <==> a == b
  {
    match (a, b)
    case (Str(x), Str(y)) => x == y
    case (Num(x), Num(y)) => x == y
    case (Bool(x), Bool(y)) => x == y
    case (Null, Null) => true
    case (Missing, Missing) => true
    case (Obj(x), Obj(y)) => x == y
    case _ => false
  }
}
