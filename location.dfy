/**
  Location specifiers and their normalisation into key paths
  (`_parseLocation`, and the falsy guard of `setLocation`).
 */
module Location {
  import opened Values

  /** What a caller may pass as a location: an array of keys, or any other
      value (a string, `null`, `undefined`, a number, a plain object, ...). */
  datatype Key = Keys(keys: seq<string>) | Scalar(v: Val)

  /** `if (loc)`: arrays are objects, hence always truthy. */
  predicate KeyTruthy(k: Key) {
    k.Keys? || Truthy(k.v)
  }

  predicate IsString(k: Key) {
    k.Scalar? && k.v.Prim? && k.v.p.Str?
  }

  /** `_parseLocation`: an array is copied element by element, a string
      becomes a one-key path (the string test comes before the falsy test, so
      `""` gives `[""]`), any other falsy value gives the empty path, and
      anything else is a TypeError.  Paths are values here, so the copy can
      never be aliased with the caller's array. */
  function ParseLocation(k: Key): (r: Result<seq<string>>)
    ensures k.Keys? ==> r == Ok(k.keys)
    ensures IsString(k) ==> r == Ok([k.v.p.s])
    ensures r.Err? <==> !k.Keys? && !IsString(k) && KeyTruthy(k)
    ensures r.Err? ==> r.error == InvalidLocation
    ensures !k.Keys? && !IsString(k) && !KeyTruthy(k) ==> r == Ok([])
  {
    match k
    case Keys(ks) => Ok(ks)
    case Scalar(v) =>
      if v.Prim? && v.p.Str? then Ok([v.p.s])
      else if !Truthy(v) then Ok([])
      else Err(InvalidLocation)
  }

  /** The path `setLocation` stores: a falsy specifier gives `[]` before
      `_parseLocation` is consulted. */
  function SetLocationPath(k: Key): (r: Result<seq<string>>)
    ensures r.Err? <==> ParseLocation(k).Err?
    ensures r != ParseLocation(k) ==> r == Ok([]) && ParseLocation(k) == Ok([""])
  {
    if KeyTruthy(k) then ParseLocation(k) else Ok([])
  }

  /** The falsy guard of `setLocation` and `_parseLocation` disagree on
      exactly one specifier: the empty string. */
  lemma SetLocationGuardDiffers(k: Key)
    ensures SetLocationPath(k) != ParseLocation(k) <==> k == Scalar(Prim(Str("")))
  {
  }
}
