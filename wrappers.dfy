/** Small value types shared by every module of the model. */
module Wrappers {

  /** Python's `None` (and numpy's NaN where it stands for a missing value). */
  datatype Option<+T> = None | Some(value: T) {
    function GetOr(default: T): T {
      match this
      case Some(v) => v
      case None => default
    }
  }

  /** A call that either returns a value or raises an exception. */
  datatype Result<+R, +E> = Success(value: R) | Failure(error: E)

  /** A JSON scalar as the loaders hand it over: `null`, a number or a string. */
  datatype Value = Null | Num(x: real) | Str(s: string)

  function Abs(x: real): (r: real)
    ensures r >= 0.0 && (r == x || r == -x)
  {
    if x < 0.0 then -x else x
  }
}
