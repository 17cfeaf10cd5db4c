/**
 * The one piece of CloneQuietlyExtensions that the dispatch relies on:
 * `withCloner`, which hands a non-null object to an external deep-cloning
 * library. The library's code is not part of this model; it is a parameter.
 */
module CloneQuietlyExtensions {
  import opened JavaValues

  /**
   * The external deep cloner: for a (non-null) object it yields a copy,
   * which is again a non-null object, or None when the library throws.
   */
  type DeepCloner = JObject -> Option<JObject>

  /**
   * withCloner: the null check cannot fail, since a JObject is non-null;
   * the result is the library's copy, or its failure.
   */
  function WithCloner(o: JObject, deepClone: DeepCloner): (r: Result)
    ensures r.Ok? <==> deepClone(o).Some?
    ensures r.Ok? ==> r.value.Obj? && r.value.obj == deepClone(o).value
    ensures r.Err? ==> r.error == ClonerFailure
  {
    match deepClone(o)
    case Some(c) => Ok(Obj(c))
    case None => Err(ClonerFailure)
  }
}
