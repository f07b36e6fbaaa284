/** Result types shared by every component (src/common/result.hpp, without the messages). */
module Prelude {

  datatype Option<+T> = None | Some(value: T)

  /** `Status` of the engine: success, or an error whose wording is not modelled. */
  datatype Status = Success | Failure

  /**
   * What a call does. `Fail` is an ordinary error result; `Abort` means the program would not
   * return at all: a failed assertion, a wrong variant access or a missing operand.
   */
  datatype Outcome<+T> = Ok(value: T) | Fail | Abort {
    predicate IsFailure() {
      !Ok?
    }

    function PropagateFailure<U>(): Outcome<U>
      requires !Ok?
    {
      if Fail? then Fail else Abort
    }

    function Extract(): T
      requires Ok?
    {
      value
    }
  }
}
