/** Optional values: the model's stand-in for `undefined` / `null` in the source. */
module Wrappers {

  datatype Option<+T> = None | Some(value: T)

  /** `xs.filter(Boolean)` on a list of optional objects: the present values, in order. */
  function Somes<T>(xs: seq<Option<T>>): (r: seq<T>)
    ensures |r| <= |xs|
    ensures r == [] <==> forall i :: 0 <= i < |xs| ==> xs[i].None?
  {
    if xs == [] then []
    else (match xs[0] case Some(v) => [v] case None => []) + Somes(xs[1..])
  }
}
