/** Result types shared by the whole project. */
module Wrappers {

  datatype Option<+T> = None | Some(value: T)

  /** A value, or the status code an operation hands back to its caller. */
  datatype Result<+T> = Ok(value: T) | Err(code: int)

  function Min(a: int, b: int): int {
    if a <= b then a else b
  }

  /** Every value present. */
  function Somes<T>(vs: seq<T>): (r: seq<Option<T>>)
    ensures |r| == |vs|
  {
    seq(|vs|, i requires 0 <= i < |vs| => Some(vs[i]))
  }

  lemma {:induction false} Regroup<T>(a: seq<T>, b: seq<T>, c: seq<T>)
    ensures a + (b + c) == a + b + c
  {
  }
}
