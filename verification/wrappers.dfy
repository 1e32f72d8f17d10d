/** Failure-compatible optional values, standing in for JavaScript `null`
    and Rust `Option`. */
module Wrappers {

  datatype Option<+T> = None | Some(value: T) {

    predicate IsFailure() {
      None?
    }

    function PropagateFailure<U>(): Option<U>
      requires None?
    {
      None
    }

    function Extract(): T
      requires Some?
    {
      value
    }

    /** The wrapped value, or `default` when there is none (Rust's `unwrap_or`). */
    function GetOr(default: T): T {
      match this
      case Some(v) => v
      case None => default
    }
  }

  /** An argument of a JavaScript entry point that expects a string: the
      string, or a value of some other type. */
  datatype Value = Str(text: string) | NonString
}

/** Unsigned bytes, as held by a JavaScript `Uint8Array` and by the raw form
    of an Internet Computer principal. */
module Bytes {

  newtype byte = b: int | 0 <= b < 0x100

  /** The numeric order of bytes, used to order byte strings lexicographically. */
  function ByteLess(x: byte, y: byte): bool {
    x < y
  }
}
