/** Kotlin's nullable types `T?`: a value that is either `null` or a `T`. */
module Nullables {

  /** `None` stands for `null`, `Some(v)` for a non-null `v`. */
  datatype Option<T> = None | Some(value: T)
}
