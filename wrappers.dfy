/** Small failure-carrying datatypes shared by the other modules. */
module Wrappers {

  /** A value that may be absent: Python's `None` or a JSON `null`. */
  datatype Option<+T> = None | Some(value: T)

  /** Either a value or the message of the exception that was raised instead. */
  datatype Result<+T> = Success(value: T) | Failure(message: string)

  /**
   * What an external call (object storage, database) did: returned normally,
   * or raised an exception whose `str(e)` is `message`. The environment picks
   * it; the model never inspects why a call failed.
   */
  datatype Outcome = Pass | Fail(message: string)
}
