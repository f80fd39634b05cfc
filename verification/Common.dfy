/** Small shared datatypes. */
module Common {

  datatype Option<+T> = None | Some(value: T)

  /** How an awaited call ends: with a value, with a rejected promise, or never, because the process died. */
  datatype Ended<+T> = Done(value: T) | Threw | Crashed {
    predicate IsFailure() {
      !Done?
    }

    function PropagateFailure<U>(): Ended<U>
      requires !Done?
    {
      if Threw? then Threw else Crashed
    }

    function Extract(): T
      requires Done?
    {
      value
    }
  }

  /** JavaScript truthiness of an optional string: absent and empty are both false. */
  predicate Present(text: Option<string>) {
    text.Some? && text.value != ""
  }
}
