/** Failure-carrying wrappers shared by every helper of the expression package. */
module Base {

  datatype Option<+T> = None | Some(value: T)

  /** The kinds of error the helpers return; message text and stack traces are not modelled. */
  datatype Error =
    | RowTooFewColumns                  // a Row operand with fewer than two columns
    | ColumnCountMismatch(expected: int) // "Operand should contain <expected> column(s)"
    | InvalidDefaultValue               // the package's errDefaultValue
    | Foreign(code: int)                // an error produced by a collaborator outside this file

  /** A value or an error, as Go's `(T, error)` pair when exactly one of them is meaningful. */
  datatype Result<+T> = Ok(value: T) | Err(error: Error)

  /** A bare Go `error`: nil (Pass) or an error. */
  datatype Outcome = Pass | Fail(error: Error)

  /** What a collaborator outside this file returns: a value, or a failure identified by a code. */
  datatype Reply<+T> = Done(value: T) | Failed(code: int)

  /** A collaborator's failure becomes a Foreign error, propagated unchanged. */
  function Lift<T>(r: Reply<T>): (res: Result<T>)
    ensures r.Done? ==> res == Ok(r.value)
    ensures r.Failed? ==> res == Err(Foreign(r.code))
  {
    match r
    case Done(v) => Ok(v)
    case Failed(c) => Err(Foreign(c))
  }
}
