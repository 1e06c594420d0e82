/** How a load, a simulation or a test run ends when it does not succeed.  In the
    source every one of these ends the process: `error(...)` prints a message and
    exits, and the rest are uncaught Java exceptions. */
module Errors {

  datatype Error =
    // error(...) calls of the lexer and the loader
    | IllegalRepeater(text: string)
    | UnknownCommand(token: string)
    | NamesBeforeCircuits
    | SubcircuitNamedLikeInput(name: string)
    | DuplicateSubcircuit(name: string)
    | NotEnoughInputs(subType: string, subName: string)
    | InputNotFound(token: string)
    | TooManyInputs(subType: string, subName: string)
    | UnqualifiedOutput(token: string)
    | IncompleteOutputs
    | OutputNotFound(token: string)
    | TooManyOutputs
    | IncompleteTruthTable
    | MissingBraceAfterTruthTable
    | OutputsRequired
    // openCircuitFile: there is no definition of the requested type
    | UnknownCircuitType(circuitType: string)
    // runTestCase
    | IncompleteTestCase
    | UnknownTestCommand(token: string)
    // uncaught exceptions
    | UnexpectedEnd                 // a null token is dereferenced
    | MalformedDelay                // parseInt or a missing entry in propagationDelay
    | RowOutOfRange(row: nat)       // a truth-table row number beyond the table
    | MissingNames                  // inputNames or outputNames never given: a null array
    | TableTooLarge                 // a truth table of 2^n rows, n > 30, cannot be allocated
    | InconsistentSections          // a names section after the table, outputs or delays it sizes
    | TooManyBits                   // a test vector writes past the end of its array

  datatype Result<T> = Ok(value: T) | Fail(error: Error) {
    predicate IsFailure() {
      Fail?
    }
    function PropagateFailure<U>(): Result<U>
      requires Fail?
    {
      Fail(error)
    }
    function Extract(): T
      requires Ok?
    {
      value
    }
  }

  /** r fails exactly when spec does, and with its error (up to the text of an
      illegal repeater). */
  predicate Agrees<T, U>(r: Result<T>, spec: Result<U>) {
    (r.Fail? <==> spec.Fail?) &&
    (spec.Fail? ==> if spec.error.IllegalRepeater? then r.error.IllegalRepeater? else r.error == spec.error)
  }
}
