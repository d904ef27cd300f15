/** Nullable values, and the properties of a decoded provider answer. */
module Wrappers {

  /** A nullable value. `$x ?? $default` reads a missing key as null, so for
      a read through `??` a missing key and `null` are both `None`. */
  datatype Option<+T> = None | Some(value: T) {

    /** `$x ?? $default` */
    function GetOr(default: T): T {
      match this
      case Some(v) => v
      case None => default
    }
  }

  /** A property or array key read WITHOUT `??`. A missing one raises a PHP
      warning, which Laravel turns into an `ErrorException`; a present one
      holds a value that may still be `null`. */
  datatype Field<+T> = Absent | Present(value: Option<T>)
}
