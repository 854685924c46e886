/** The JavaScript values the hook engine stores, compares and tests for truthiness.
    Numbers are modelled as integers; composite values (arrays, objects) carry an
    identity tag, so two separately built arrays are different values even when their
    contents agree. */
module JsValues {

  datatype Value =
    | Undefined
    | Null
    | Bool(b: bool)
    | Num(n: int)
    | Str(s: string)
    | Obj(id: nat)   // any composite value, named by its identity

  /** JavaScript truthiness: `undefined`, `null`, `false`, `0` and `""` are falsy,
      every other value (every object, including an empty array) is truthy. */
  predicate Truthy(v: Value) {
    match v
    case Undefined => false
    case Null => false
    case Bool(b) => b
    case Num(n) => n != 0
    case Str(s) => s != ""
    case Obj(_) => true
  }

  /** The falsy values are exactly the five listed ones. */
  lemma FalsyValues(v: Value)
    ensures !Truthy(v) <==> v == Undefined || v == Null || v == Bool(false) || v == Num(0) || v == Str("")
  {
  }

  /** JavaScript `===`: primitives compare by value, composite values by identity. */
  function StrictEquals(a: Value, b: Value): (r: bool)
    ensures r <==> a == b
    ensures a.Obj? && b.Obj? ==> (r <==> a.id == b.id)
  {
    match (a, b)
    case (Undefined, Undefined) => true
    case (Null, Null) => true
    case (Bool(x), Bool(y)) => x == y
    case (Num(x), Num(y)) => x == y
    case (Str(x), Str(y)) => x == y
    case (Obj(x), Obj(y)) => x == y
    case _ => false
  }
}
