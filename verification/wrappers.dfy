/** The optional value used for Rust's `Option`, and for the panics of
    `expect` and of overflow-checked `u8` arithmetic (a panic is `None`). */
module Wrappers {

  datatype Option<+T> = None | Some(value: T) {

    /** A `None` is the failure that `:-` passes on. */
    predicate IsFailure() {
      None?
    }

    /** The failure carried over to an Option of another value type. */
    function PropagateFailure<U>(): Option<U> {
      None
    }

    /** The value a successful step yields to `:-`. */
    function Extract(): T
      requires Some?
    {
      value
    }
  }
}
