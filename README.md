# ourcodecli in Dafny

A model of the three command-line tools of the `ourcodecli` repository, with
proofs about the model:

- **ourcopy**: `parseArgs` (`packages/copy/src/args.ts`) and `copyPath`
  (`packages/copy/src/copy.ts`). `copyPath` runs three checks in a fixed
  order: equal paths, then destination inside source, then a missing
  source. After that it either prints a dry-run plan or runs
  `mkdir(parent)`, `rm(dest)` under `--force`, and `cp`.
- **ourdelete**: `parseArgs` (`packages/delete/src/args.ts`), `removePath`
  (`packages/delete/src/remove.ts`) and the decision sequence of `main`
  (`packages/delete/src/index.ts`): help, then version, then "no paths",
  then the ordered loop over `removePath`, then the `catch` that maps an
  error to its message, the usage text and an exit code.
- **our-icon-gen**: `parseArgs` with its `--sizes` list
  (`packages/icon-generator/src/args.ts`) and the planning part of
  `generateIcons` (`packages/icon-generator/src/core.ts`): the source check,
  the conditional directory creation, the sorted set of sizes, the output
  file names and the dry-run plan.
- The three `errors.ts` files: a closed enum of codes each, and the
  `CliError` record whose `exitCode` defaults to 1.

## Files

| file | module | what it holds |
|---|---|---|
| `wrappers.dfy` | `Wrappers` | `Option` (JavaScript `null`), `Result` (a value or a thrown error), `Outcome` (a promise that resolves with nothing or throws) |
| `seqs.dfy` | `Seqs` | two sequence facts used as proof steps |
| `text.dfy` | `Text` | the JavaScript string built-ins: `startsWith`, `String(n)`, `split`, `trim`, `Number.parseInt(s, 10)` |
| `cli_errors.dfy` | `CliErrors` | the generic `CliError` record and `Thrown`: a tool's own error, or an error raised by the platform |
| `copy_errors.dfy`, `delete_errors.dfy`, `icon_errors.dfy` | `CopyErrors`, `DeleteErrors`, `IconErrors` | each tool's `ErrorCode` enum |
| `filesystem.dfy` | `FileSystem` | the filesystem as `map<Path, Entry>`, `mkdir`/`rm`/`cp` as functions on it, and the `Host` class. `Host` holds the map, the console log and the trace of filesystem calls; its methods update them in place |
| `copy_engine.dfy` | `CopyEngine` | `isSubPath`, and `copyPath` both as a function (`Copy`) and as a method on the host (`CopyPath`) |
| `copy_args.dfy` | `CopyCli` | the copy parser's token loop, and its closed form over "words" |
| `delete_remove.dfy` | `DeleteEngine` | `removePath` |
| `delete_args.dfy` | `DeleteCli` | the delete parser's token loop, and its closed form |
| `delete_main.dfy` | `DeleteMain` | `main` of the delete tool: the removal loop and the `catch` |
| `icon_args.dfy` | `IconCli` | the icon parser's token loop and the `--sizes` pipeline |
| `icon_core.dfy` | `IconCore` | `generateIcons` planning |

## How the model is built

- **State.** Every imperative operation is a `method` on a `Host` object,
  which holds `fs` (the filesystem map), `faults` (an oracle of the paths
  whose `rm` fails and with which errno code), `log` (the console lines)
  and `calls` (the filesystem calls made). Each method is tied by its
  postcondition to a pure function of the old state: `Copy`, `Transfer`,
  `Main`, `RemoveAll`, `Generate`, `Proceed`, `Remove`. The properties
  are proved about those functions.
- **Parsers.** Each parser's loop is a `while` loop, proved equal to a
  recursive `Scan` over the tokens. A closed-form lemma then says what
  `Scan` computes for a whole command line (`CopyCli.ParseOfWords`,
  `DeleteCli.ParseClosedForm`, `IconCli.ParseOfWords`).
- **Errors.** A thrown `CliError` is a `Failure`/`Fail` value.
- **Host effects.** The version string (`getVersion`) and the working
  directory (`path.resolve`) become parameters of `Main`. The image
  library becomes a recorded `RenderCall` per output.

Choices the code makes that the model keeps:

- Each tool has its own closed `ErrorCode` enum, so the model has three
  `ErrorCode` datatypes.
- A failed `mkdir`, `rm` or `cp` propagates as the platform's own error,
  `Thrown.Native` carrying the errno code.
- In non-strict delete mode `removePath` itself swallows the error
  (`packages/delete/src/remove.ts:24`), and `DeleteEngine.Remove` then
  reports no error.
- After such a swallowed failure the loop still prints "Successfully
  deleted" for that path (`DeleteMain.AttemptsAll`).

## Model

| member | source | states |
|---|---|---|
| CliErrors.NewCliError | packages/copy/src/errors.ts:10-20 | the constructor stores `code`, `message` and `exitCode` unchanged, and `name` is always `"CliError"` |
| CliErrors.DefaultExitCode | packages/delete/src/errors.ts:11-16 | without an explicit exit code, the error's `exitCode` is 1 |
| IconErrors.ExplicitExitCodeKept | packages/icon-generator/src/errors.ts:12-16 | an explicit exit code (7) is kept; the default exit code is 1; the name is `CliError` |
| CopyErrors.FromValue | packages/copy/src/errors.ts:1-8 | looking up an enum string value gives the code with that value, or None when no code has it |
| CopyErrors.CodesAreClosedAndDistinct | packages/copy/src/errors.ts:1-8 | the copy tool has exactly six codes; their string values are pairwise distinct; each value maps back to its code |
| DeleteErrors.FromValue | packages/delete/src/errors.ts:1-5 | looking up an enum string value gives the code with that value, or None when no code has it |
| DeleteErrors.CodesAreClosedAndDistinct | packages/delete/src/errors.ts:1-5 | the delete tool has exactly three codes, with distinct values that map back to their codes |
| IconErrors.FromValue | packages/icon-generator/src/errors.ts:1-6 | looking up an enum string value gives the code with that value, or None when no code has it |
| IconErrors.CodesAreClosedAndDistinct | packages/icon-generator/src/errors.ts:1-6 | the icon tool has exactly four codes, with distinct values that map back to their codes |
| Text.Split | packages/icon-generator/src/args.ts:57 | `split(',')` gives at least one part; no part contains the separator; joining the parts with the separator gives the input back |
| Text.SplitJoinWith | packages/icon-generator/src/args.ts:57 | splitting a joined list gives the parts back, when no part contains the separator |
| Text.TrimStart | packages/icon-generator/src/args.ts:58 | the result is a suffix of the input; only white space was removed; the result does not start with white space |
| Text.TrimEnd | packages/icon-generator/src/args.ts:58 | the result is a prefix of the input; only white space was removed; the result does not end with white space |
| Text.TrimmedEnds | packages/icon-generator/src/args.ts:58 | `trim()` leaves no white space at either end |
| Text.Trim | packages/icon-generator/src/args.ts:58 | `trim()` never lengthens its input |
| Text.TrimOfTrimmed | packages/icon-generator/src/args.ts:58 | a string with no white space at either end is its own `trim()` |
| Text.TrimOfBlank | packages/icon-generator/src/args.ts:58 | a string of white space only trims to the empty string |
| Text.ParseIntOfText | packages/icon-generator/src/args.ts:60 | `parseInt` reads back any integer's decimal text, and stops at the first character that is not a digit |
| Text.ParseIntNaN | packages/icon-generator/src/args.ts:60 | text that starts with anything but white space, a sign or a digit is NaN |
| Text.ParseIntOfDigit | packages/icon-generator/src/args.ts:60 | text that starts with a digit reads as a number that is not negative |
| Text.ParseInt | packages/icon-generator/src/args.ts:60 | the empty string is NaN |
| Text.LeadingNumber | packages/icon-generator/src/args.ts:60 | there is a leading number exactly when the text starts with a digit |
| FileSystem.Dirname | packages/copy/src/copy.ts:52-54 | `dirname` of a path with a separator is shorter than the path, and the path lies in its tree |
| FileSystem.MkdirResult | packages/copy/src/copy.ts:54 | a successful recursive `mkdir` creates the directory, keeps every existing entry, and adds only directories of the path's ancestry |
| FileSystem.RmResult | packages/delete/src/remove.ts:11 | `rm` fails exactly for an oracle fault, a missing path without `force`, or a directory without `recursive`; a missing path is ENOENT; success removes the whole tree |
| FileSystem.CpResult | packages/copy/src/copy.ts:71-75 | a missing source is ENOENT; a successful copy keeps every path and adds only copied entries; with `force`, every copied entry replaces the old one |
| FileSystem.RemoveTree | packages/delete/src/remove.ts:11 | removing a tree drops exactly the paths in it and keeps all other entries unchanged |
| FileSystem.OriginOfRelocate | packages/copy/src/copy.ts:71-75 | the entry copied to a new place can be traced back to where it came from |
| FileSystem.CopiedFrom | packages/copy/src/copy.ts:71-75 | every entry `cp` writes lies under the destination and is the relocated copy of an entry of the source tree |
| FileSystem.Host.Mkdir | packages/copy/src/copy.ts:54 | records the `mkdir` call and updates the map as `MkdirResult` says |
| FileSystem.Host.Rm | packages/delete/src/remove.ts:11 | records the `rm` call and updates the map as `RmResult` says, with the host's fault oracle |
| FileSystem.Join | packages/icon-generator/src/core.ts:47 | `join(dir, name)` starts with `dir` and a separator |
| FileSystem.Resolve | packages/delete/src/index.ts:47 | `resolve` of the empty path is the working directory |
| FileSystem.ResolveShape | packages/delete/src/index.ts:47 | against an absolute working directory every path resolves to an absolute one, and a relative path to one below the working directory |
| FileSystem.Host.Cp | packages/copy/src/copy.ts:71-75 | records the `cp` call and updates the map as `CpResult` says |
| FileSystem.Host.Render | packages/icon-generator/src/core.ts:52-55 | the image work for one size is one recorded call; the map and the log do not change |
| FileSystem.Host.Say | packages/copy/src/copy.ts:52 | a console line is appended to the log; nothing else changes |
| CopyEngine.SubPathIsInTree | packages/copy/src/copy.ts:5-10 | for resolved paths, `isSubPath(parent, child)` holds exactly when the child is the parent or lies under it; in particular `isSubPath(p, p)` |
| CopyEngine.IsSubPath | packages/copy/src/copy.ts:5-10 | every path is a sub-path of itself, and a sub-path's separator-terminated form is at least as long as the parent's |
| CopyEngine.SubPathExamples | packages/copy/src/copy.ts:5-10 | `/tmp/src` contains `/tmp/src/inner` but not `/tmp/src2`; the relation is not symmetric; `/` contains `/tmp` |
| CopyEngine.RootContainsAll | packages/copy/src/copy.ts:5-10 | the root `/` contains every absolute path |
| CopyEngine.DryRunPlan | packages/copy/src/copy.ts:51-65 | the plan has 3 lines with `force` and 2 without: "Would ensure parent directory exists" with the parent, then "Would remove destination" only under `force`, then the "Would copy from src to dst" line with the options `dereference` (the negation of `preserveSymlinks`), `recursive=true` and `force` spelled `true`/`false` |
| CopyEngine.Transfer | packages/copy/src/copy.ts:53-75 | the real run prints nothing; its first call is `mkdir(dirname(dest), recursive)`; a failure is the platform's own error; a success makes exactly the calls mkdir, then rm under `force`, then cp with `dereference = !preserveSymlinks` |
| CopyEngine.Copy | packages/copy/src/copy.ts:27-75 | equal paths fail SAME_SOURCE_DEST (checked first, since `isSubPath(p, p)`); a destination inside the source fails DEST_INSIDE_SOURCE even when the source is missing; then a missing source fails SOURCE_NOT_FOUND; no check failure touches the map, calls or log; a dry run changes nothing and prints exactly `DryRunPlan` |
| CopyEngine.CopyPath | packages/copy/src/copy.ts:12-76 | the method's result, new map, calls and printed lines are those of `Copy` on the old map |
| CopyEngine.SayPlan | packages/copy/src/copy.ts:51-64 | the dry-run branch prints exactly `DryRunPlan` and changes neither the map nor the calls |
| CopyEngine.RunTransfer | packages/copy/src/copy.ts:53-75 | the mkdir/rm/cp branch does what `Transfer` says and prints nothing |
| CopyEngine.MkdirOutsideTree | packages/copy/src/copy.ts:54 | creating the destination's parent leaves any tree not containing it unchanged |
| CopyEngine.CopyOntoClearedTree | packages/copy/src/copy.ts:71-75 | copying onto an empty destination tree mirrors the source there and leaves the source tree as it was |
| CopyEngine.ForcedTransferSteps | packages/copy/src/copy.ts:54-75 | under `force`, mkdir succeeds, rm clears the destination tree without touching the source, and cp then succeeds with the cleared map plus the copied entries |
| CopyEngine.ForceCopyMirrorsSource | packages/copy/src/copy.ts:67-75 | a forced real copy onto a destination neither inside nor above the source succeeds; afterwards the destination is an exact mirror of the source tree and the source is unchanged |
| CopyEngine.MergeKeepsExisting | packages/copy/src/copy.ts:71-75 | without `force`, no existing entry is changed or removed |
| CopyEngine.ForceOntoAncestorLosesSource | packages/copy/src/copy.ts:34-75 | the containment guard only checks one direction: a forced copy onto an ancestor of the source removes the source with the destination, then fails with ENOENT |
| CopyCli.ParseArgs | packages/copy/src/args.ts:35-104 | the `for` loop, including its skip of the `--rename` value, computes `Scan` on the defaults; an empty token list gives the all-default record |
| CopyCli.Scan | packages/copy/src/args.ts:48-103 | every error the scan raises exits with 1 and is MISSING_RENAME_VALUE or TOO_MANY_ARGS |
| CopyCli.ReadToken | packages/copy/src/args.ts:49-100 | one pass of the loop reads one token (two for `--rename` and its value) and leaves the rest of the scan unchanged: its failure is the scan's failure, its record continues the scan |
| CopyCli.ScanWords | packages/copy/src/args.ts:48-101 | scanning the tokens of a list of accepted words is running the words one by one |
| CopyCli.RunIsRecord | packages/copy/src/args.ts:48-101 | accepted words with at most two positionals give `Record`: each boolean set exactly when its switch occurs, the first and second positional as source and destination, the last rename value; a third positional fails TOO_MANY_ARGS |
| CopyCli.ParseOfWords | packages/copy/src/args.ts:48-101 | the same closed form for `parseArgs` on the command line the words spell |
| CopyCli.RecordSnoc | packages/copy/src/args.ts:51-100 | reading one more word changes the record the way its `switch` case does: a switch sets only its own boolean, `--rename` sets only `rename`, a positional fills the next slot |
| CopyCli.InterleavingDoesNotMatter | packages/copy/src/args.ts:48-101 | two command lines with the same positionals, the same rename values and the same switches parse to the same result, however they are interleaved |
| CopyCli.UnknownOptionFails | packages/copy/src/args.ts:85-89 | an unknown token starting with `-` fails with "Unknown option" and TOO_MANY_ARGS, whatever follows |
| CopyCli.UnknownAtFront | packages/copy/src/args.ts:85-89 | an unknown option read from any record fails at once |
| CopyCli.RenameWithoutValueFails | packages/copy/src/args.ts:60-72 | `--rename`/`-r` at the end, or before an empty or `-` token, fails with MISSING_RENAME_VALUE |
| CopyCli.RenameAtFront | packages/copy/src/args.ts:60-68 | the same failure from any record |
| CopyCli.HelpKeepsScanning | packages/copy/src/args.ts:73-76 | `--help` does not stop the scan: an unknown option after it is still reported |
| DeleteCli.Scan | packages/delete/src/args.ts:39-65 | a failure is TOO_MANY_ARGS with exit code 1; the loop adds at most one path per token |
| DeleteCli.ParseArgs | packages/delete/src/args.ts:29-68 | the `for` loop computes `Scan` on the defaults |
| DeleteCli.SwitchStartsWithDash | packages/delete/src/args.ts:43-58 | every switch starts with `-`, so none is ever taken for a path |
| DeleteCli.FirstRejected | packages/delete/src/args.ts:59-62 | the first rejected token is an unknown option from the list; there is none exactly when every token is accepted |
| DeleteCli.PathsOf | packages/delete/src/args.ts:63 | the collected paths are exactly the tokens not starting with `-` |
| DeleteCli.PathsOfOptions | packages/delete/src/args.ts:60-63 | a list of options only yields no paths |
| DeleteCli.TurnSets | packages/delete/src/args.ts:43-58 | each switch sets its own boolean and no other field |
| DeleteCli.RecordAfterSwitch | packages/delete/src/args.ts:43-58 | a switch followed by more tokens gives the same record as setting it and reading the rest |
| DeleteCli.RecordAfterPath | packages/delete/src/args.ts:63 | a path followed by more tokens is appended in front of the rest's paths |
| DeleteCli.ScanIsRecord | packages/delete/src/args.ts:39-65 | from any record, a token list fails at its first rejected token, and otherwise sets each switch present and appends the non-flag tokens in order |
| DeleteCli.ParseClosedForm | packages/delete/src/args.ts:29-68 | `parseArgs` reports the first unknown option as TOO_MANY_ARGS; otherwise each flag is true exactly when one of its spellings occurs, and `paths` is the tokens not starting with `-`, in order; an empty list gives all-false flags and no paths |
| DeleteEngine.Failed | packages/delete/src/remove.ts:18-23 | DELETE_FAILED, exit code 1, with the message "Failed to delete: path (code)", the code being `UNKNOWN` when the errno has none |
| DeleteEngine.Classify | packages/delete/src/remove.ts:10-25 | an `rm` outcome throws exactly when strict, failed and not ENOENT; the error is then `Failed` |
| DeleteEngine.Remove | packages/delete/src/remove.ts:4-26 | `removePath` throws exactly when strict and the oracle fails the path with anything but ENOENT; a failing `rm` (an oracle fault) leaves the map as it was; a successful one removes the tree |
| DeleteEngine.QuietUnlessStrict | packages/delete/src/remove.ts:14-24 | without strict nothing is thrown; a path `rm` does not fail on is never an error; a missing path without `force` (ENOENT) changes nothing and is not an error |
| DeleteEngine.RemovedWithTree | packages/delete/src/remove.ts:11 | after removing an existing path, nothing in its tree exists and everything outside it is unchanged |
| DeleteEngine.RemovePath | packages/delete/src/remove.ts:4-26 | one `rm(absPath, recursive, force)` call; the new map and the thrown error are those of `Remove` |
| DeleteMain.RemoveAll | packages/delete/src/index.ts:46-50 | at most one call and one line per path; without a failure every path was attempted and reported; a failure happens only in strict mode, is DELETE_FAILED with exit code 1, and its path was attempted but not reported |
| DeleteMain.Catch | packages/delete/src/index.ts:52-66 | a `CliError` prints its message and exits with its exit code; the usage text is shown exactly for TOO_MANY_ARGS and MISSING_ARGS; any other error exits with 1 |
| DeleteMain.Main | packages/delete/src/index.ts:24-67 | the exit code is 0 or 1, and filesystem calls happen only after successful parsing |
| DeleteMain.Report | packages/delete/src/index.ts:52-66 | the `catch` prints `Catch`'s lines and returns its exit code, touching nothing else |
| DeleteMain.RemoveAllStep | packages/delete/src/index.ts:46-50 | one turn of the loop: the first path's error ends the loop, otherwise its success line is printed and the loop goes on with the rest |
| DeleteMain.RemoveEach | packages/delete/src/index.ts:46-50 | the `for` loop's result, map, calls and lines are those of `RemoveAll` |
| DeleteMain.Run | packages/delete/src/index.ts:24-67 | `main` on the host gives the exit code, map, calls and lines of `Main` |
| DeleteMain.AttemptsCons | packages/delete/src/index.ts:46-50 | the calls and lines of a list are those of its first path followed by those of the rest |
| DeleteMain.AttemptsAll | packages/delete/src/index.ts:46-51 | without strict, or with no fatal failure, every path is attempted in order and each is reported as deleted, whether or not its `rm` succeeded |
| DeleteMain.StrictStopsAtFirstFailure | packages/delete/src/index.ts:46-62 | in strict mode the first fatal path ends the loop with its DELETE_FAILED error; the paths before it are attempted and reported; it is attempted; no later path is attempted |
| DeleteMain.StrictRunStops | packages/delete/src/index.ts:46-62 | a strict run whose first fatal path is the `k`-th exits with 1, has attempted exactly the first `k + 1` paths, reported the first `k` as deleted, printed "Failed to delete: <path> (<code>)" and printed no usage text |
| DeleteMain.StrictMain | packages/delete/src/index.ts:46-62 | such a run is `main` throwing the `k`-th path's DELETE_FAILED error after the attempts and reports of the paths before it |
| DeleteMain.HelpWins | packages/delete/src/index.ts:28-31 | `--help` anywhere wins over version and paths: usage, exit 0, nothing removed |
| DeleteMain.VersionNext | packages/delete/src/index.ts:33-37 | `--version` without `--help` prints the version and exits 0, before the path count is looked at |
| DeleteMain.UnknownOptionShowsUsage | packages/delete/src/index.ts:52-62 | an unknown option prints its message and the usage text and exits with 1, removing nothing |
| DeleteMain.NoPathsShowsUsage | packages/delete/src/index.ts:39-44 | with no paths, MISSING_ARGS prints its message and the usage text and exits with 1 |
| DeleteMain.NonStrictRunSucceeds | packages/delete/src/index.ts:46-51 | without strict, the exit code is 0 exactly when help, version or some path is given; every path is then attempted and reported in order |
| IconCli.Kept | packages/icon-generator/src/args.ts:58-59 | trimming and dropping empty parts keeps at most as many parts, none empty |
| IconCli.KeptBare | packages/icon-generator/src/args.ts:58-59 | parts with no white space at either end pass the trim and the filter unchanged |
| IconCli.KeptBlank | packages/icon-generator/src/args.ts:58-59 | parts that trim to nothing are all dropped |
| IconCli.Values | packages/icon-generator/src/args.ts:60-67 | when no number is NaN or non-positive, the sizes are those numbers, all positive |
| IconCli.ParseSizes | packages/icon-generator/src/args.ts:56-67 | an accepted list holds positive integers only; a rejected one fails with INVALID_SIZES and the "Invalid sizes list" message |
| IconCli.ParseSizesMeaning | packages/icon-generator/src/args.ts:56-67 | a list is accepted exactly when each of its comma-separated parts is blank or, once trimmed, reads by `parseInt` as a positive integer (`PartOk`) |
| IconCli.KeptPositive | packages/icon-generator/src/args.ts:57-61 | the parts kept after trimming and dropping blanks all parse to positive integers exactly when every part is `PartOk` |
| IconCli.SizePartsOfText | packages/icon-generator/src/args.ts:56-59 | a written-out list of sizes splits back into each size's text |
| IconCli.NumbersOfTexts | packages/icon-generator/src/args.ts:60 | `parseInt` reads each size's text back as that size |
| IconCli.SizesRoundTrip | packages/icon-generator/src/args.ts:56-67 | parsing the comma-joined text of a list of positive sizes gives the list back ("72,96,128" gives [72, 96, 128]) |
| IconCli.BlankPartsGiveNoSizes | packages/icon-generator/src/args.ts:56-67 | a value of blanks and commas only is the empty list, not an error |
| IconCli.ZeroSizeRejected | packages/icon-generator/src/args.ts:60-66 | `--sizes 10,0` fails with INVALID_SIZES |
| IconCli.Place | packages/icon-generator/src/args.ts:87-98 | a plain token fails with TOO_MANY_ARGS exactly when all three slots are taken, and otherwise leaves the sizes and flags alone |
| IconCli.Scan | packages/icon-generator/src/args.ts:44-100 | a failure is TOO_MANY_ARGS or INVALID_SIZES with exit code 1; sizes, once set, are all positive |
| IconCli.ParseArgs | packages/icon-generator/src/args.ts:32-103 | the `for` loop, including its skip of the `--sizes` value, computes `Scan` on the defaults; no tokens gives all-null slots and false flags; parsed sizes are positive |
| IconCli.PlainIsNoOption | packages/icon-generator/src/args.ts:46-84 | a token not starting with `-` matches none of the option cases |
| IconCli.PlainStep | packages/icon-generator/src/args.ts:83-98 | the loop reads a plain token by placing it |
| IconCli.PlainTokensFillName | packages/icon-generator/src/args.ts:91-98 | with source and destination taken, one plain token becomes the name and a second one fails |
| IconCli.PlainTokensFillDestination | packages/icon-generator/src/args.ts:89-98 | with source taken, plain tokens fill destination then name, and a third one fails |
| IconCli.PlainTokensFillSource | packages/icon-generator/src/args.ts:87-98 | from empty slots, plain tokens fill source, destination, name, and a fourth one fails |
| IconCli.PlainTokensFillSlots | packages/icon-generator/src/args.ts:87-98 | `parseArgs` on plain tokens fills source, destination and name in order; a fourth token fails with TOO_MANY_ARGS |
| IconCli.UnknownOptionFails | packages/icon-generator/src/args.ts:84-86 | an unknown option fails with TOO_MANY_ARGS, whatever follows |
| IconCli.SizesNeedValue | packages/icon-generator/src/args.ts:49-55 | `--sizes` at the end, or before an empty or `-` token, fails with INVALID_SIZES "Missing value for --sizes option." |
| IconCli.SizesStep | packages/icon-generator/src/args.ts:49-69 | `--sizes v` parses `v`, fails with its error, or stores the sizes and goes on after `v` |
| IconCli.SizesValueConsumed | packages/icon-generator/src/args.ts:47-70 | a valid list after `--sizes` becomes `sizes`, and its token never fills a slot |
| IconCli.ScanWords | packages/icon-generator/src/args.ts:44-100 | scanning the tokens of a list of accepted words (plain tokens, the three switches, `--sizes` with a list `parseSizes` accepts) is running the words one by one |
| IconCli.SwitchStep | packages/icon-generator/src/args.ts:71-82 | `--dry-run`/`-n`, `--help`/`-h` and `--version`/`-v` each set their own boolean and the loop goes on |
| IconCli.RunIsRecord | packages/icon-generator/src/args.ts:44-100 | running accepted words gives the closed-form record, or TOO_MANY_ARGS once a fourth positional is read |
| IconCli.RecordSnoc | packages/icon-generator/src/args.ts:44-100 | one more word changes the closed-form record the way the loop's case for it does |
| IconCli.ParseOfWords | packages/icon-generator/src/args.ts:32-103 | on a command line of accepted words, the first three positionals fill source, destination and name in order, a fourth fails with TOO_MANY_ARGS, `sizes` is the list of the last `--sizes`, and each boolean is true exactly when its switch occurs |
| IconCli.ThreeSlotsSizesDryRun | packages/icon-generator/src/args.ts:32-103 | three positionals, `--sizes` with an accepted list and `-n` give the three slots, that list's sizes and dry run on, help and version off |
| IconCli.ExampleCommandLine | packages/icon-generator/tests/args.test.ts:7-22 | `src/logo.png dist/icons app --sizes 72,96,128 -n` parses to those three slots, the sizes 72, 96 and 128, dry run on, help and version off |
| IconCore.Requested | packages/icon-generator/src/core.ts:13-20 | an omitted `sizes` is the default list; `null` is empty; a given list is used as is |
| IconCore.Insert | packages/icon-generator/src/core.ts:43 | inserting into an ascending list keeps it ascending and adds exactly the new element |
| IconCore.UniqueSizes | packages/icon-generator/src/core.ts:43 | the distinct sizes are strictly ascending and have the same elements as the input |
| IconCore.AscendingIsCanonical | packages/icon-generator/src/core.ts:43 | two ascending lists with the same elements are equal |
| IconCore.UniqueSizesCanonical | packages/icon-generator/src/core.ts:43 | the planned sizes depend only on the set of sizes; an ascending list is kept as it is; the operation is idempotent |
| IconCore.DefaultSizesPlanned | packages/icon-generator/src/core.ts:7 | the default sizes are planned as they are listed |
| IconCore.FileNameNamesSize | packages/icon-generator/src/core.ts:46 | the size can be read back from `<base>-<s>x<s>.png` |
| IconCore.IconFileName | packages/icon-generator/src/core.ts:46 | the file name starts with the base name and a dash and ends with `.png` |
| IconCore.FileNamesDistinct | packages/icon-generator/src/core.ts:46 | different sizes give different file names |
| IconCore.OutputPathShape | packages/icon-generator/src/core.ts:46-47 | each output lies under the destination, and its name starts with the base name and a dash and ends with `.png` |
| IconCore.OutputPath | packages/icon-generator/src/core.ts:47 | the output path starts with the destination and a separator |
| IconCore.OutputPathsDistinct | packages/icon-generator/src/core.ts:46-47 | different sizes give different output paths |
| IconCore.PlanLinesSnoc | packages/icon-generator/src/core.ts:48-51 | one more size adds one "Would generate" line at the end |
| IconCore.RendersSnoc | packages/icon-generator/src/core.ts:52-55 | one more size adds one render call at the end |
| IconCore.EnsureDestination | packages/icon-generator/src/core.ts:34-41 | an existing destination is left alone; a missing one is announced in a dry run, or otherwise created with a recursive `mkdir` |
| IconCore.Generate | packages/icon-generator/src/core.ts:9-57 | a missing source fails SOURCE_NOT_FOUND before any action; a dry run changes nothing and makes no call; a real run prints nothing; any other failure is the `mkdir` of a missing destination |
| IconCore.Proceed | packages/icon-generator/src/core.ts:34-56 | the part after the source check: the same dry-run and failure facts |
| IconCore.EnsureDir | packages/icon-generator/src/core.ts:35-41 | the directory step on the host does what `EnsureDestination` says |
| IconCore.EmitOne | packages/icon-generator/src/core.ts:46-55 | one size: a "Would generate" line in a dry run, otherwise one render call to its output path |
| IconCore.EmitAll | packages/icon-generator/src/core.ts:45-56 | the loop prints `PlanLines` in a dry run and otherwise makes the `Renders` calls, never changing the map |
| IconCore.GenerateIcons | packages/icon-generator/src/core.ts:9-57 | `generateIcons` on the host does what `Generate` says |
| IconCore.GenerateFound | packages/icon-generator/src/core.ts:34-56 | the part after the source check, on the host, does what `Proceed` says |
| IconCore.RendersDistinct | packages/icon-generator/src/core.ts:45-56 | the render calls of an ascending size list come one per size, in order, to distinct paths under the destination |
| IconCore.OnePerUniqueSize | packages/icon-generator/src/core.ts:35-56 | a real run renders every requested size and nothing else, exactly once each, in ascending order, each to `<base>-<s>x<s>.png` under the destination; `mkdir` is called only when the destination was missing |
| IconCore.DefaultsRendered | packages/icon-generator/src/core.ts:7-20 | with no sizes given, the eight default sizes are rendered in their order |
| IconCore.DryRunOnlyPlans | packages/icon-generator/src/core.ts:35-51 | a dry run passes, changes nothing and makes no call; it prints "Would create directory" only when the destination is missing, then one "Would generate" line per distinct size, smallest first |

## Left out

- `packages/copy/src/index.ts` (the legacy entry point with its own older parser) and `packages/icon-generator/src/index.ts` (wiring and exit-code mapping): not part of this model.
- `getVersion` (reads and parses `package.json`): I/O. `DeleteMain.Main` takes the version string as a parameter.
- `showHelp` and the usage text: a single `Usage` line stands for it.
- `packages/delete/scripts/clean.js`: a build-time script, not part of this model.
- Image resizing with `sharp`: a foreign library. Each output is one `RenderCall`, which never fails and is not written into the filesystem map. `IconCore.Generate` therefore has no failure from the loop.
- `FileSystem.CpResult`: does not model symbolic-link dereferencing, merge details without `force`, or permissions. Links are copied as they are, whatever `dereference` says.
- `FileSystem.MkdirResult` and `FileSystem.RmResult`: only the behaviours above. Failures the map cannot explain (permissions, busy devices) come from the `faults` oracle, for `rm` only.
- `FileSystem.Resolve`: does not normalise `.` and `..` segments, because `path.resolve` is platform code. `stat` and `existsSync` are membership in the map.
- `FileSystem.Join`: is plain concatenation after a separator. `path.join` also normalises `..`, `.` and repeated separators inside the name; that normalisation is not modelled. The two agree only for a name without separators or dot segments.
- `IconCore.OutputPathShape`, `IconCore.RendersDistinct` and `IconCore.OnePerUniqueSize`: "lies under the destination" follows from `FileSystem.Join`'s concatenation. Under `path.join`, a base name such as `../x` puts the files outside the destination. These lemmas do not promise that for such base names. The file names themselves, their order and their distinctness do not depend on it.
- `DeleteEngine.Remove` and `FileSystem.RmResult`: an `rm` that fails leaves the map exactly as it was. A recursive `rm` that fails after it has removed part of a tree is not modelled.
- `FileSystem.Dirname`: is stated for paths without a trailing separator, which is what `path.resolve` returns. The separator is fixed to `/`.
- `Text.ParseInt`: integers are unbounded. The float results `parseInt` gives for very long digit strings are not modelled.
- `Text.IsSpace`: lists the ECMAScript WhiteSpace and LineTerminator characters. There is no other Unicode handling.
- `DeleteMain.Catch`: a non-`CliError` prints only "Error deleting path:". The error object `console.error` would print after it is not modelled. `removePath` catches every `rm` failure, so `main` never reaches that branch.
- `DeleteMain.Main`: `--version`'s line is the given version string.
- `async`/`await`: the calls are strictly sequential, so they are modelled as ordinary method calls.
