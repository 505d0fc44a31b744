/**
  JavaScript values as the pointer component sees them: object references into
  a store, and the primitive values that can sit under a key.  Truthiness is
  given explicitly, since the component tests values with `if (x)`.
 */
module Values {

  /** Identity of a JavaScript object in the store. */
  type ObjId = nat

  /** Primitive JavaScript values (numbers are modelled as integers; NaN is left out). */
  datatype Prim = Undef | Null | Bool(b: bool) | Num(n: int) | Str(s: string)

  /** A value held under a key: a reference to an object, or a primitive. */
  datatype Val = Ref(id: ObjId) | Prim(p: Prim)

  const Undefined: Val := Prim(Undef)

  /** JavaScript truthiness: every object is truthy; `undefined`, `null`,
      `false`, `0` and `""` are falsy. */
  predicate Truthy(v: Val) {
    match v
    case Ref(_) => true
    case Prim(p) =>
      match p
      case Undef => false
      case Null => false
      case Bool(b) => b
      case Num(n) => n != 0
      case Str(s) => s != ""
  }

  /** The errors the component raises. */
  datatype Error =
    | InvalidRoot          // setRoot: the root is not an object
    | InvalidLocation      // _parseLocation: neither an array, a string nor falsy
    | EmptyLocation        // set: "Cannot set the root property"
    | EmptyClear           // clear: "Clear must at least have one level of depth"
    | PropertyOfNonObject  // strict-mode TypeError: assigning a key of a non-object

  datatype Option<+T> = None | Some(value: T)

  datatype Result<+T> = Ok(value: T) | Err(error: Error)

  datatype Outcome = Pass | Fail(error: Error)

  /** The object a value refers to, if it is an object (`instanceof Object`). */
  function AsObject(v: Val): (r: Option<ObjId>)
    ensures r.Some? <==> v.Ref?
    ensures r.Some? ==> v == Ref(r.value)
  {
    if v.Ref? then Some(v.id) else None
  }
}
