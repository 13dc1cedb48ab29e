/** Vocabulary shared by every component of the model. */
module Basics {

  datatype Option<+T> = None | Some(value: T)

  datatype Result<+T, +E> = Ok(value: T) | Err(error: E)

  /** A Go slice: the nil slice and the empty slice are different values. */
  datatype Slice<+T> = Nil | Items(items: seq<T>)

  type byte = x: int | 0 <= x < 256
  type Bytes = seq<byte>

  predicate Distinct(xs: seq<string>) {
    forall i, j | 0 <= i < j < |xs| :: xs[i] != xs[j]
  }

  /** Index of the last element satisfying `p`, or -1: the backward scan loops of the source. */
  function LastWhere<T>(xs: seq<T>, p: T -> bool): (r: int)
    ensures -1 <= r < |xs|
    ensures 0 <= r ==> p(xs[r])
    ensures forall i | r < i < |xs| :: !p(xs[i])
  {
    if xs == [] then -1
    else if p(xs[|xs| - 1]) then |xs| - 1
    else LastWhere(xs[..|xs| - 1], p)
  }

  /** Index of the first element satisfying `p`, or -1: the forward scan loops of the source. */
  function FirstWhere<T>(xs: seq<T>, p: T -> bool): (r: int)
    ensures -1 <= r < |xs|
    ensures 0 <= r ==> p(xs[r]) && forall i | 0 <= i < r :: !p(xs[i])
    ensures r == -1 ==> forall i | 0 <= i < |xs| :: !p(xs[i])
  {
    if xs == [] then -1
    else if p(xs[0]) then 0
    else
      var rest := FirstWhere(xs[1..], p);
      if rest < 0 then -1 else rest + 1
  }
}
