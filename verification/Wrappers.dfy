/** Option and Result types shared by the models.
    `Result` is failure-compatible, so `:-` propagates a stopped step. */
module Wrappers {

  datatype Option<+T> = None | Some(value: T)

  /** Why a call that changes the filesystem did not run to its end. */
  datatype Stop =
    | Crashed  // the process was killed; nothing after this point happened
    | Raised   // the code raised an exception

  datatype Result<+T> = Ok(value: T) | Stopped(why: Stop) {
    predicate IsFailure() {
      Stopped?
    }

    function PropagateFailure<U>(): Result<U>
      requires Stopped?
    {
      Stopped(why)
    }

    function Extract(): T
      requires Ok?
    {
      value
    }
  }
}
