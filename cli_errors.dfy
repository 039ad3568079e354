/** The `CliError` record shared by the three tools: each tool's
    `errors.ts` declares the same class over its own `ErrorCode` enum. */
module CliErrors {
  import opened Wrappers

  /** A `CliError` as thrown by the tools. `name` is fixed by the class. */
  datatype CliError<Code> = CliError(code: Code, message: string, exitCode: int) {
    const name: string := "CliError"
  }

  /** `new CliError(code, message, exitCode = 1)`. */
  function NewCliError<Code>(code: Code, message: string, exitCode: int := 1): (e: CliError<Code>)
    ensures e.code == code && e.message == message && e.exitCode == exitCode
    ensures e.name == "CliError"
  {
    CliError(code, message, exitCode)
  }

  /** Without an explicit exit code the error exits with 1. */
  lemma DefaultExitCode<Code>(code: Code, message: string)
    ensures NewCliError(code, message).exitCode == 1
  {
  }

  /** The `code` property of an error thrown by the platform (`"ENOENT"`),
      None when the error has none. */
  type Errno = Option<string>

  /** What a tool's catch block can receive: one of its own `CliError`s, or
      an error thrown by the platform (a failed filesystem call). */
  datatype Thrown<Code> = Raised(error: CliError<Code>) | Native(errno: Errno)
}
