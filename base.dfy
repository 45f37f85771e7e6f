/** Small value types shared by every module of the model. */
module Base {

  /** A value that may be absent: the model of JavaScript's `null` result. */
  datatype Option<+T> = None | Some(value: T)
  {
    function GetOr(default: T): T
    {
      match this
      case Some(v) => v
      case None => default
    }
  }

  /** A computation that either yields a value or fails with a message. */
  datatype Result<+T> = Ok(value: T) | Err(message: string)

  function Min(a: int, b: int): int
  {
    if a <= b then a else b
  }

  /** `Array.prototype.filter`: the elements of `s` that `keep` accepts, in order. */
  function Filter<T(!new)>(s: seq<T>, keep: T -> bool): (r: seq<T>)
    ensures |r| <= |s|
    ensures forall x :: x in r <==> x in s && keep(x)
  {
    if s == [] then []
    else (if keep(s[0]) then [s[0]] else []) + Filter(s[1..], keep)
  }

  /** No element occurs twice. */
  predicate NoDuplicates<T(==)>(s: seq<T>)
  {
    forall i, j :: 0 <= i < j < |s| ==> s[i] != s[j]
  }
}
