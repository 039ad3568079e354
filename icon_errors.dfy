/** packages/icon-generator/src/errors.ts: the icon generator's error codes. */
module IconErrors {
  import opened Wrappers
  import opened CliErrors

  /** The closed set of codes of the icon generator. */
  datatype ErrorCode = TooManyArgs | MissingArgs | SourceNotFound | InvalidSizes
  {
    /** The enum member's string value, which is its own name. */
    function Value(): string {
      match this
      case TooManyArgs => "TOO_MANY_ARGS"
      case MissingArgs => "MISSING_ARGS"
      case SourceNotFound => "SOURCE_NOT_FOUND"
      case InvalidSizes => "INVALID_SIZES"
    }
  }

  type Error = CliError<ErrorCode>

  const AllCodes: seq<ErrorCode> := [TooManyArgs, MissingArgs, SourceNotFound, InvalidSizes]

  /** The code whose string value is `s`, if any: `ErrorCode[s]`. */
  function FromValue(s: string): (r: Option<ErrorCode>)
    ensures r.Some? ==> r.value.Value() == s
    ensures r.None? ==> forall c: ErrorCode :: c.Value() != s
  {
    if s == "TOO_MANY_ARGS" then Some(TooManyArgs)
    else if s == "MISSING_ARGS" then Some(MissingArgs)
    else if s == "SOURCE_NOT_FOUND" then Some(SourceNotFound)
    else if s == "INVALID_SIZES" then Some(InvalidSizes)
    else None
  }

  /** The four codes are all listed, once each, and their values tell them apart. */
  lemma CodesAreClosedAndDistinct(c: ErrorCode)
    ensures c in AllCodes && |AllCodes| == 4
    ensures forall i, j | 0 <= i < j < |AllCodes| :: AllCodes[i].Value() != AllCodes[j].Value()
    ensures FromValue(c.Value()) == Some(c)
  {
  }

  /** The exit code given to the constructor is kept (the tests use 7). */
  lemma ExplicitExitCodeKept()
    ensures NewCliError(SourceNotFound, "not found", 7).exitCode == 7
    ensures NewCliError(TooManyArgs, "oops").exitCode == 1
    ensures NewCliError(TooManyArgs, "oops").name == "CliError"
  {
  }
}
