/** Small shared datatypes: an optional value usable with `:-`, and the
    value/remaining-input pair every parser in the model returns. */
module Base {

  /** A value that may be absent (JavaScript's `null`/`undefined` results). */
  datatype Option<+T> = None | Some(value: T) {

    predicate IsFailure() {
      None?
    }

    function PropagateFailure<U>(): Option<U>
      requires None?
    {
      None
    }

    function Extract(): T
      requires Some?
    {
      value
    }
  }

  /** A parsed value together with the input that follows it. */
  datatype Parsed<+T> = Parsed(value: T, rest: string)
}
