/** A value that may be absent: the model's `undefined`/`null`. */
module Wrappers {

  datatype Option<+T> = None | Some(value: T) {

    /** The value, or `default` when absent. */
    function GetOr(default: T): T
    {
      match this
      case Some(v) => v
      case None => default
    }
  }

  /** A JavaScript number that passes `if (x)`: defined and not 0. */
  predicate Present(x: Option<int>)
  {
    x.Some? && x.value != 0
  }
}
