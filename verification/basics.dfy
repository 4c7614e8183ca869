/** Optional values and results, standing in for Swift's `T?` and `throws`. */
module Basics {

  /** Swift's `Optional<T>`: `nil` is `None`. */
  datatype Option<+T> = None | Some(value: T) {

    /** The `??` operator: the wrapped value, or `default` for `nil`. */
    function OrElse(default: T): T
    {
      match this
      case Some(v) => v
      case None => default
    }
  }

  /** The outcome of a Swift function that `throws`: a returned value or a thrown error. */
  datatype Result<+T, +E> = Ok(value: T) | Err(error: E)
}
