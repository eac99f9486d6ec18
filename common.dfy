/** Small value types shared by every module of the crawler model. */
module Common {

  /** A value that may be absent: Python's `None` or SQL's NULL. */
  datatype Option<+T> = None | Some(value: T)

  /** How one call into an external collaborator (the browser or the database)
      ends: normally, by raising an `Exception`, or by an operator interrupt
      (a `BaseException` such as `KeyboardInterrupt`, which no
      `except Exception` handler catches). */
  datatype Signal = Normal | Failure | Interrupt

  /** A call that yields a value unless it raises an `Exception` or is interrupted. */
  datatype Outcome<+T> = Done(value: T) | Raised | Interrupted

}
