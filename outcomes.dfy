/** Optional values and the exceptional exits of the modelled operations. */
module Outcomes {

  datatype Option<T> = None | Some(value: T)

  /**
   * The exception an operation raises. Each constructor names the
   * exception class (or the library failure) the source throws.
   */
  datatype Failure =
    | OutOfRange        // std::out_of_range from std::string::substr or map::at
    | InvalidArgument   // std::invalid_argument from a numeric conversion
    | QueueError        // EQueueError
    | FatalError        // EFatalError
    | DatabaseError     // EDatabaseError
    | ModelError        // EModelError
    | EquivalenceError  // EEquivalenceError
    | DuplicateInstance // EDuplicateInstance
    | ScriptAbort       // a bare `raise` in a Python script
    | IndexError        // Python IndexError (a list index past the end)
    | KeyError          // Python KeyError (a dictionary lookup of a missing key)
    | TypeError         // Python TypeError (e.g. concatenating None and a string)
    | IOError           // Python IOError (a file that cannot be opened)
    | AssertAbort       // a failed C assert(), which ends the program
    | UndefinedBehavior // an operation C++ leaves undefined, such as back() of an empty list

  datatype Result<T> = Ok(value: T) | Fail(failure: Failure) {
    predicate IsOk() {
      Ok?
    }
  }
}
