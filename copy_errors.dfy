/** packages/copy/src/errors.ts: the copy tool's error codes. */
module CopyErrors {
  import opened Wrappers
  import opened CliErrors

  /** The closed set of codes of the copy tool. */
  datatype ErrorCode =
    | TooManyArgs
    | MissingRenameValue
    | MissingArgs
    | SourceNotFound
    | SameSourceDest
    | DestInsideSource
  {
    /** The enum member's string value, which is its own name. */
    function Value(): string {
      match this
      case TooManyArgs => "TOO_MANY_ARGS"
      case MissingRenameValue => "MISSING_RENAME_VALUE"
      case MissingArgs => "MISSING_ARGS"
      case SourceNotFound => "SOURCE_NOT_FOUND"
      case SameSourceDest => "SAME_SOURCE_DEST"
      case DestInsideSource => "DEST_INSIDE_SOURCE"
    }
  }

  type Error = CliError<ErrorCode>

  const AllCodes: seq<ErrorCode> :=
    [TooManyArgs, MissingRenameValue, MissingArgs, SourceNotFound, SameSourceDest, DestInsideSource]

  /** The code whose string value is `s`, if any: `ErrorCode[s]`. */
  function FromValue(s: string): (r: Option<ErrorCode>)
    ensures r.Some? ==> r.value.Value() == s
    ensures r.None? ==> forall c: ErrorCode :: c.Value() != s
  {
    if s == "TOO_MANY_ARGS" then Some(TooManyArgs)
    else if s == "MISSING_RENAME_VALUE" then Some(MissingRenameValue)
    else if s == "MISSING_ARGS" then Some(MissingArgs)
    else if s == "SOURCE_NOT_FOUND" then Some(SourceNotFound)
    else if s == "SAME_SOURCE_DEST" then Some(SameSourceDest)
    else if s == "DEST_INSIDE_SOURCE" then Some(DestInsideSource)
    else None
  }

  /** The six codes are all listed, once each, and their values tell them apart. */
  lemma CodesAreClosedAndDistinct(c: ErrorCode)
    ensures c in AllCodes && |AllCodes| == 6
    ensures forall i, j | 0 <= i < j < |AllCodes| :: AllCodes[i].Value() != AllCodes[j].Value()
    ensures FromValue(c.Value()) == Some(c)
  {
  }
}
