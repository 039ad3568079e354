/** packages/delete/src/errors.ts: the delete tool's error codes. */
module DeleteErrors {
  import opened Wrappers
  import opened CliErrors

  /** The closed set of codes of the delete tool. */
  datatype ErrorCode = TooManyArgs | MissingArgs | DeleteFailed
  {
    /** The enum member's string value, which is its own name. */
    function Value(): string {
      match this
      case TooManyArgs => "TOO_MANY_ARGS"
      case MissingArgs => "MISSING_ARGS"
      case DeleteFailed => "DELETE_FAILED"
    }
  }

  type Error = CliError<ErrorCode>

  const AllCodes: seq<ErrorCode> := [TooManyArgs, MissingArgs, DeleteFailed]

  /** The code whose string value is `s`, if any: `ErrorCode[s]`. */
  function FromValue(s: string): (r: Option<ErrorCode>)
    ensures r.Some? ==> r.value.Value() == s
    ensures r.None? ==> forall c: ErrorCode :: c.Value() != s
  {
    if s == "TOO_MANY_ARGS" then Some(TooManyArgs)
    else if s == "MISSING_ARGS" then Some(MissingArgs)
    else if s == "DELETE_FAILED" then Some(DeleteFailed)
    else None
  }

  /** The three codes are all listed, once each, and their values tell them apart. */
  lemma CodesAreClosedAndDistinct(c: ErrorCode)
    ensures c in AllCodes && |AllCodes| == 3
    ensures forall i, j | 0 <= i < j < |AllCodes| :: AllCodes[i].Value() != AllCodes[j].Value()
    ensures FromValue(c.Value()) == Some(c)
  {
  }
}
