/** Result types shared by the model.

    The C++ code reports failure by throwing `std::runtime_error`; state that an
    operation changed before throwing stays changed. `Outcome` is what a call
    produced: a returned value or the message of the exception it raised.
 */
module Outcomes {

  datatype Outcome<+T> = Returned(value: T) | Threw(message: string)

  datatype Option<+T> = None | Some(value: T)

  /** What a call into a native runtime that loads a model did: it succeeded, or
      it threw an exception whose `what()` is given. */
  datatype Attempt = Succeeded | Failed(what: string)
}
