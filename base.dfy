/** Option, Result and Outcome: the failure-carrying values used in place of the runner's exceptions. */
module Wrappers {

  datatype Option<+T> = None | Some(value: T)

  datatype Result<+T, +E> = Success(value: T) | Failure(error: E)

  /** The outcome of an operation that returns nothing but may throw. */
  datatype Outcome<+E> = Pass | Fail(error: E)
}

/** The exceptions the runner throws, one constructor per message. */
module Errors {

  datatype Error =
    // registration: getMigrationParts
    | InvalidInitUp                 // "invalid init migration: up.sql"
    | InvalidInitDown               // "invalid init migration: down.sql"
    | InvalidStateFile              // "invalid migration: state.sql at ..."
    | UpDownCountMismatch           // "invalid migration: different up/down counts at ..."
    | MissingDown(num: string)      // "invalid migration: different up/down at ..."
    | InvalidUp(num: string)        // "invalid migration: up.sql for N at ..."
    | InvalidDown(num: string)      // "invalid migration: down.sql for N at ..."
    // target resolution
    | NoPreviousVersion             // "cannot to find previous version"
    | SelectedVersionUnknown        // "selected version is unknown"
    | CurrentVersionUnknown         // "current version is unknown"
    // step execution
    | InvalidSql                    // "invalid sql: ..."
    | InvalidStateSql               // "invalid state sql: ..."
    | InvalidStateRows              // "invalid state result rows"
    | InvalidState                  // "invalid state: ..."
    | UnknownState                  // "unknown state"
    | IncorrectState(state: int)    // "incorrect state: N"
    | AbortedOnError                // "aborted on error"
    | InvalidFinishState            // "invalid finish state"
    | NoAttempts                    // "no attempts"
}
