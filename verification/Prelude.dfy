/** Definitions shared by the component models. */
module Prelude {
  datatype Option<+T> = None | Some(value: T)

  datatype Result<+T, +E> = Ok(value: T) | Err(error: E)

  /** The elements that satisfy a test, in order. */
  function Filter<T(!new)>(test: T -> bool, s: seq<T>): (r: seq<T>)
    ensures forall x :: x in r <==> x in s && test(x)
    ensures |r| <= |s|
  {
    if s == [] then [] else (if test(s[0]) then [s[0]] else []) + Filter(test, s[1..])
  }

  /** A strict total order. */
  ghost predicate StrictTotal<T(!new)>(less: (T, T) -> bool) {
    && (forall a :: !less(a, a))
    && (forall a, b :: a != b ==> less(a, b) || less(b, a))
    && (forall a, b, c :: less(a, b) && less(b, c) ==> less(a, c))
  }
}
