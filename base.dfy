/** Failure-carrying results shared by every part of the model.

    The C# code reports failures by throwing; here every operation that can
    throw returns a `Result`, and `Error` names the exception it would throw.
 */
module Base {

  datatype Option<+T> = None | Some(value: T) {
    function GetOr(default: T): T {
      match this
      case Some(v) => v
      case None => default
    }
  }

  /** The exceptions the modelled code throws (or lets escape). */
  datatype Error =
    /** `SnapshotOverriddenException`: the snapshot name was already verified by this approver. */
    | SnapshotOverridden(name: string)
    /** A JSON reader exception from parsing malformed input. */
    | ParseError
    /** A `JsonException` from `SelectTokens` for a JSONPath it cannot parse. */
    | PathError(path: string)
    /** `InvalidOperationException` with its message. */
    | InvalidOperation(message: string)
    /** `ContentDifferentThanExpectedException`, thrown by the inline diff reporter. */
    | ContentDifferent(actualContent: string, expectedContent: string,
                       actualFileName: string, expectedFileName: string,
                       diff: string, message: string)

  datatype Result<+T> = Ok(value: T) | Err(error: Error) {
    predicate IsFailure() {
      Err?
    }

    function PropagateFailure<U>(): Result<U>
      requires Err?
    {
      Err(error)
    }

    function Extract(): T
      requires Ok?
    {
      value
    }
  }
}
