/** `main` of the `ourdelete` tool: parse, answer `--help` and `--version`,
    then remove the paths one after another; every thrown `CliError` ends
    the run with its message, the usage text for argument errors, and its
    exit code. */
module DeleteMain {
  import opened Wrappers
  import opened Text
  import opened CliErrors
  import opened DeleteErrors
  import opened FileSystem
  import opened DeleteCli
  import opened DeleteEngine
  import opened Seqs

  const MissingPaths := "Missing required argument(s): <path1> [path2] ..."

  /** The line printed after each path that `removePath` did not throw for. */
  function Deleted(absPath: Path): Line {
    Info("Successfully deleted " + absPath)
  }

  /** What the removal loop leaves behind: the tree, the `rm` calls, the
      console lines and the error that ended it, if any. */
  datatype Batch = Batch(fs: Fs, calls: seq<Call>, lines: seq<Line>, failure: Option<Error>)

  /** The loop over `args.paths`, each resolved against `cwd` before it is
      removed. */
  function RemoveAll(fs: Fs, faults: map<Path, Errno>, cwd: Path, rels: seq<string>, force: bool, strict: bool): (b: Batch)
    ensures |b.lines| <= |b.calls| <= |rels|
    ensures b.failure.None? ==> |b.calls| == |b.lines| == |rels|
    ensures b.failure.Some? ==> |b.calls| == |b.lines| + 1 && strict
    ensures b.failure.Some? ==> b.failure.value.code == DeleteFailed && b.failure.value.exitCode == 1
    decreases |rels|
  {
    if rels == [] then Batch(fs, [], [], None)
    else
      var p := Resolve(cwd, rels[0]);
      var r := Remove(fs, faults, p, force, strict);
      if r.error.Some? then Batch(r.fs, [RmCall(p, true, force)], [], r.error)
      else
        var b := RemoveAll(r.fs, faults, cwd, rels[1..], force, strict);
        Batch(b.fs, [RmCall(p, true, force)] + b.calls, [Deleted(p)] + b.lines, b.failure)
  }

  /** The message and exit code of a thrown value, as `main`'s `catch`
      reports them. */
  datatype Exit = Exit(code: int, lines: seq<Line>)

  /** A `CliError` prints its message, then the usage text for
      TOO_MANY_ARGS and MISSING_ARGS, and exits with its exit code; anything
      else prints one line and exits with 1. */
  function Catch(t: Thrown<ErrorCode>): (x: Exit)
    ensures |x.lines| > 0 && x.lines[0].Problem?
    ensures t.Raised? ==> x.code == t.error.exitCode && x.lines[0].text == t.error.message
    ensures t.Raised? ==> (Usage in x.lines <==> t.error.code == TooManyArgs || t.error.code == MissingArgs)
    ensures t.Native? ==> x == Exit(1, [Problem("Error deleting path:")])
  {
    match t
    case Raised(e) =>
      Exit(e.exitCode, [Problem(e.message)] + (if e.code == TooManyArgs || e.code == MissingArgs then [Usage] else []))
    case Native(_) => Exit(1, [Problem("Error deleting path:")])
  }

  /** A whole run: its exit code, the tree it leaves, its calls and what it printed. */
  datatype MainRun = MainRun(exitCode: int, fs: Fs, calls: seq<Call>, lines: seq<Line>)

  function Thrown(fs: Fs, calls: seq<Call>, lines: seq<Line>, e: Error): MainRun {
    var x := Catch(Raised(e));
    MainRun(x.code, fs, calls, lines + x.lines)
  }

  /** `main(argv)` with the working directory `cwd` and the package version
      `version`. */
  function Main(fs: Fs, faults: map<Path, Errno>, cwd: Path, version: string, argv: seq<string>): (run: MainRun)
    ensures run.exitCode == 0 || run.exitCode == 1
    ensures |run.calls| > 0 ==> Scan(Defaults, argv).Success?
  {
    match Scan(Defaults, argv)
    case Failure(e) => Thrown(fs, [], [], e)
    case Success(args) =>
      if args.help then MainRun(0, fs, [], [Usage])
      else if args.version then MainRun(0, fs, [], [Info(version)])
      else if args.paths == [] then Thrown(fs, [], [], NewCliError(MissingArgs, MissingPaths))
      else
        var b := RemoveAll(fs, faults, cwd, args.paths, args.force, args.strict);
        match b.failure
        case None => MainRun(0, b.fs, b.calls, b.lines)
        case Some(e) => Thrown(b.fs, b.calls, b.lines, e)
  }

  /** `showHelp()` or `console.error(err.message)` and friends: the `catch`
      of `main`. */
  method Report(h: Host, t: Thrown<ErrorCode>) returns (exitCode: int)
    modifies h
    ensures exitCode == Catch(t).code
    ensures h.log == old(h.log) + Catch(t).lines
    ensures h.fs == old(h.fs) && h.calls == old(h.calls)
  {
    match t {
      case Raised(e) =>
        h.Say(Problem(e.message));
        if e.code == TooManyArgs || e.code == MissingArgs {
          h.Say(Usage);
        }
        exitCode := e.exitCode;
      case Native(_) =>
        h.Say(Problem("Error deleting path:"));
        exitCode := 1;
    }
  }

  /** The loop's state: what is done so far, in front of what is left. */
  function Prepend(calls: seq<Call>, lines: seq<Line>, b: Batch): Batch {
    Batch(b.fs, calls + b.calls, lines + b.lines, b.failure)
  }

  /** One turn of the loop, in terms of `RemoveAll`: the first path is
      removed and either ends the loop with its error or prints its line. */
  lemma RemoveAllStep(fs: Fs, faults: map<Path, Errno>, cwd: Path, rels: seq<string>, force: bool, strict: bool,
                      done: seq<Call>, printed: seq<Line>)
    requires rels != []
    ensures var p := Resolve(cwd, rels[0]);
      var r := Remove(fs, faults, p, force, strict);
      var call := RmCall(p, true, force);
      Prepend(done, printed, RemoveAll(fs, faults, cwd, rels, force, strict))
      == if r.error.Some? then Batch(r.fs, done + [call], printed, r.error)
         else Prepend(done + [call], printed + [Deleted(p)], RemoveAll(r.fs, faults, cwd, rels[1..], force, strict))
  {
    var p := Resolve(cwd, rels[0]);
    var r := Remove(fs, faults, p, force, strict);
    var call := RmCall(p, true, force);
    if r.error.Some? {
      assert printed + [] == printed;
    } else {
      var rest := RemoveAll(r.fs, faults, cwd, rels[1..], force, strict);
      AppendAssoc(done, [call], rest.calls);
      AppendAssoc(printed, [Deleted(p)], rest.lines);
    }
  }

  /** The `for` loop of `main`: `removePath` on each resolved path, and the
      success line after each one that did not throw. */
  method RemoveEach(h: Host, cwd: Path, paths: seq<string>, force: bool, strict: bool) returns (failure: Option<Error>)
    modifies h
    ensures var b := RemoveAll(old(h.fs), h.faults, cwd, paths, force, strict);
      failure == b.failure && h.fs == b.fs && h.calls == old(h.calls) + b.calls && h.log == old(h.log) + b.lines
  {
    ghost var calls0, log0 := h.calls, h.log;
    ghost var whole := RemoveAll(h.fs, h.faults, cwd, paths, force, strict);
    ghost var doneCalls: seq<Call>, doneLines: seq<Line> := [], [];
    var todo := paths;
    while todo != []
      invariant h.calls == calls0 + doneCalls && h.log == log0 + doneLines
      invariant whole == Prepend(doneCalls, doneLines, RemoveAll(h.fs, h.faults, cwd, todo, force, strict))
      decreases |todo|
    {
      var absPath := Resolve(cwd, todo[0]);
      RemoveAllStep(h.fs, h.faults, cwd, todo, force, strict, doneCalls, doneLines);
      var removed := RemovePath(h, absPath, force, strict);
      AppendAssoc(calls0, doneCalls, [RmCall(absPath, true, force)]);
      doneCalls := doneCalls + [RmCall(absPath, true, force)];
      if removed.Fail? {
        return Some(removed.error);
      }
      h.Say(Deleted(absPath));
      AppendAssoc(log0, doneLines, [Deleted(absPath)]);
      doneLines := doneLines + [Deleted(absPath)];
      todo := todo[1..];
    }
    assert doneCalls + [] == doneCalls && doneLines + [] == doneLines;
    return None;
  }

  /** `main(argv)` against the host `h`. */
  method Run(h: Host, argv: seq<string>, cwd: Path, version: string) returns (exitCode: int)
    modifies h
    ensures var run := Main(old(h.fs), h.faults, cwd, version, argv);
      exitCode == run.exitCode && h.fs == run.fs
      && h.calls == old(h.calls) + run.calls && h.log == old(h.log) + run.lines
  {
    var parsed := ParseArgs(argv);
    if parsed.Failure? {
      exitCode := Report(h, Raised(parsed.error));
      return;
    }
    var args := parsed.value;
    if args.help {
      h.Say(Usage);
      return 0;
    }
    if args.version {
      h.Say(Info(version));
      return 0;
    }
    if args.paths == [] {
      exitCode := Report(h, Raised(NewCliError(MissingArgs, MissingPaths)));
      return;
    }
    ghost var calls0, log0 := h.calls, h.log;
    ghost var b := RemoveAll(h.fs, h.faults, cwd, args.paths, args.force, args.strict);
    var failure := RemoveEach(h, cwd, args.paths, args.force, args.strict);
    if failure.Some? {
      exitCode := Report(h, Raised(failure.value));
      AppendAssoc(log0, b.lines, Catch(Raised(failure.value)).lines);
      return;
    }
    return 0;
  }

  // ---------------------------------------------------------------------
  // What a run promises.

  /** A path whose `rm` fails with anything but ENOENT: in strict mode it
      stops the run. */
  predicate Fatal(faults: map<Path, Errno>, p: Path) {
    p in faults && faults[p] != Some("ENOENT")
  }

  /** The `rm` call for each of `rels`, in order. */
  function Attempts(cwd: Path, rels: seq<string>, force: bool): seq<Call> {
    seq(|rels|, i requires 0 <= i < |rels| => RmCall(Resolve(cwd, rels[i]), true, force))
  }

  /** The success line for each of `rels`, in order. */
  function Reports(cwd: Path, rels: seq<string>): seq<Line> {
    seq(|rels|, i requires 0 <= i < |rels| => Deleted(Resolve(cwd, rels[i])))
  }

  lemma AttemptsCons(cwd: Path, rels: seq<string>, force: bool)
    requires rels != []
    ensures Attempts(cwd, rels, force) == [RmCall(Resolve(cwd, rels[0]), true, force)] + Attempts(cwd, rels[1..], force)
    ensures Reports(cwd, rels) == [Deleted(Resolve(cwd, rels[0]))] + Reports(cwd, rels[1..])
  {
  }

  /** Without `--strict`, or when no `rm` fails fatally, every path is
      attempted in order and each one is reported as deleted, whether or not
      its `rm` succeeded. */
  lemma {:induction false} AttemptsAll(fs: Fs, faults: map<Path, Errno>, cwd: Path, rels: seq<string>, force: bool, strict: bool)
    requires !strict || forall j | 0 <= j < |rels| :: !Fatal(faults, Resolve(cwd, rels[j]))
    ensures var b := RemoveAll(fs, faults, cwd, rels, force, strict);
      b.failure == None && b.calls == Attempts(cwd, rels, force) && b.lines == Reports(cwd, rels)
    decreases |rels|
  {
    if rels != [] {
      var p := Resolve(cwd, rels[0]);
      var r := Remove(fs, faults, p, force, strict);
      assert !Fatal(faults, Resolve(cwd, rels[0])) || !strict;
      assert forall j | 1 <= j < |rels| :: rels[1..][j - 1] == rels[j];
      AttemptsAll(r.fs, faults, cwd, rels[1..], force, strict);
      AttemptsCons(cwd, rels, force);
    }
  }

  /** In strict mode the first path whose `rm` fails fatally ends the loop:
      the paths before it are attempted and reported, it is attempted and
      not reported, the ones after it are not attempted, and its
      DELETE_FAILED error is what the loop throws. */
  lemma {:induction false} StrictStopsAtFirstFailure(fs: Fs, faults: map<Path, Errno>, cwd: Path, rels: seq<string>, force: bool, k: nat)
    requires k < |rels| && Fatal(faults, Resolve(cwd, rels[k]))
    requires forall j | 0 <= j < k :: !Fatal(faults, Resolve(cwd, rels[j]))
    ensures var b := RemoveAll(fs, faults, cwd, rels, force, true);
      var p := Resolve(cwd, rels[k]);
      b.failure == Some(Failed(p, faults[p]))
      && b.calls == Attempts(cwd, rels[..k + 1], force) && b.lines == Reports(cwd, rels[..k])
    decreases k
  {
    var p := Resolve(cwd, rels[0]);
    var r := Remove(fs, faults, p, force, true);
    AttemptsCons(cwd, rels[..k + 1], force);
    if k > 0 {
      assert !Fatal(faults, Resolve(cwd, rels[0]));
      var rest := rels[1..];
      assert forall j | 0 <= j < |rest| :: rest[j] == rels[j + 1];
      StrictStopsAtFirstFailure(r.fs, faults, cwd, rest, force, k - 1);
      assert rest[k - 1] == rels[k];
      StrictPassStep(fs, faults, cwd, rels, force);
      assert rels[..k + 1][1..] == rest[..k];
      assert rels[..k][1..] == rest[..k - 1];
      AttemptsCons(cwd, rels[..k], force);
    } else {
      assert rels[..1][1..] == [];
    }
  }

  /** A strict pass over a first path that does not fail fatally. */
  lemma StrictPassStep(fs: Fs, faults: map<Path, Errno>, cwd: Path, rels: seq<string>, force: bool)
    requires rels != [] && !Fatal(faults, Resolve(cwd, rels[0]))
    ensures var p := Resolve(cwd, rels[0]);
      var b := RemoveAll(Remove(fs, faults, p, force, true).fs, faults, cwd, rels[1..], force, true);
      RemoveAll(fs, faults, cwd, rels, force, true)
        == Batch(b.fs, [RmCall(p, true, force)] + b.calls, [Deleted(p)] + b.lines, b.failure)
  {
  }

  /** `--help` anywhere in a list without unknown options wins over
      everything else: the usage text, exit code 0, nothing removed. */
  lemma HelpWins(fs: Fs, faults: map<Path, Errno>, cwd: Path, version: string, argv: seq<string>)
    requires FirstRejected(argv).None? && ("--help" in argv || "-h" in argv)
    ensures Main(fs, faults, cwd, version, argv) == MainRun(0, fs, [], [Usage])
  {
    ParseClosedForm(argv);
    var i :| 0 <= i < |argv| && (argv[i] == "--help" || argv[i] == "-h");
    assert SwitchOf(argv[i]) == Some(Help);
    SpellsSwitch(argv, Help);
  }

  /** Some token of `argv` spells the switch `s`. */
  predicate Spells(argv: seq<string>, s: Switch) {
    exists i | 0 <= i < |argv| :: SwitchOf(argv[i]) == Some(s)
  }

  lemma SpellsSwitch(argv: seq<string>, s: Switch)
    ensures Spells(argv, s) <==> s in SwitchesIn(argv)
  {
    if s in SwitchesIn(argv) {
      var i :| 0 <= i < |argv| && SwitchOf(argv[i]).Some? && SwitchOf(argv[i]).value == s;
    }
  }

  /** `--version` without `--help` prints the version, exits with 0 and
      removes nothing. */
  lemma VersionNext(fs: Fs, faults: map<Path, Errno>, cwd: Path, version: string, argv: seq<string>)
    requires FirstRejected(argv).None? && Spells(argv, Version) && !Spells(argv, Help)
    ensures Main(fs, faults, cwd, version, argv) == MainRun(0, fs, [], [Info(version)])
  {
    ParseClosedForm(argv);
    SpellsSwitch(argv, Version);
    SpellsSwitch(argv, Help);
  }

  /** An unknown option ends the run before anything is removed: its
      message, the usage text and exit code 1. */
  lemma UnknownOptionShowsUsage(fs: Fs, faults: map<Path, Errno>, cwd: Path, version: string, argv: seq<string>, t: string)
    requires FirstRejected(argv) == Some(t)
    ensures Main(fs, faults, cwd, version, argv) == MainRun(1, fs, [], [Problem("Unknown option: " + t), Usage])
  {
    ParseClosedForm(argv);
  }

  /** Switches alone, without `--help` or `--version`, are MISSING_ARGS:
      its message, the usage text and exit code 1. */
  lemma NoPathsShowsUsage(fs: Fs, faults: map<Path, Errno>, cwd: Path, version: string, argv: seq<string>)
    requires forall i | 0 <= i < |argv| :: SwitchOf(argv[i]) == Some(Force) || SwitchOf(argv[i]) == Some(Strict)
    ensures Main(fs, faults, cwd, version, argv) == MainRun(1, fs, [], [Problem(MissingPaths), Usage])
  {
    ParseClosedForm(argv);
    assert FirstRejected(argv).None?;
    SpellsSwitch(argv, Version);
    SpellsSwitch(argv, Help);
    forall i | 0 <= i < |argv|
      ensures StartsWith(argv[i], "-")
    {
      SwitchStartsWithDash(argv[i]);
    }
    PathsOfOptions(argv);
  }

  /** Without `--strict` a run that gets past parsing exits with 0 exactly
      when it has something to do, and then every path is attempted and
      reported as deleted, in order. */
  lemma NonStrictRunSucceeds(fs: Fs, faults: map<Path, Errno>, cwd: Path, version: string, argv: seq<string>)
    requires FirstRejected(argv).None? && !Spells(argv, Strict)
    ensures var run := Main(fs, faults, cwd, version, argv);
      run.exitCode == 0 <==> Spells(argv, Help) || Spells(argv, Version) || PathsOf(argv) != []
    ensures !Spells(argv, Help) && !Spells(argv, Version) && PathsOf(argv) != [] ==>
      var run := Main(fs, faults, cwd, version, argv);
      var ps := PathsOf(argv);
      run.calls == Attempts(cwd, ps, Spells(argv, Force)) && run.lines == Reports(cwd, ps)
  {
    ParseClosedForm(argv);
    SpellsSwitch(argv, Strict);
    SpellsSwitch(argv, Help);
    SpellsSwitch(argv, Version);
    SpellsSwitch(argv, Force);
    AttemptsAll(fs, faults, cwd, PathsOf(argv), Spells(argv, Force), false);
  }

  /** A strict run whose first fatal path is the `k`-th one: the paths
      before it are attempted and reported, it is attempted, no later path
      is, and `main` prints its DELETE_FAILED message without the usage text
      and exits with 1. */
  lemma StrictRunStops(fs: Fs, faults: map<Path, Errno>, cwd: Path, version: string, argv: seq<string>, k: nat)
    requires FirstRejected(argv).None? && Spells(argv, Strict) && !Spells(argv, Help) && !Spells(argv, Version)
    requires k < |PathsOf(argv)| && Fatal(faults, Resolve(cwd, PathsOf(argv)[k]))
    requires forall j | 0 <= j < k :: !Fatal(faults, Resolve(cwd, PathsOf(argv)[j]))
    ensures var ps := PathsOf(argv);
      var p := Resolve(cwd, ps[k]);
      var run := Main(fs, faults, cwd, version, argv);
      && run.exitCode == 1
      && run.calls == Attempts(cwd, ps[..k + 1], Spells(argv, Force))
      && run.lines == Reports(cwd, ps[..k]) + [Problem("Failed to delete: " + p + " (" + faults[p].GetOr("UNKNOWN") + ")")]
      && Usage !in run.lines
  {
    var ps := PathsOf(argv);
    var p := Resolve(cwd, ps[k]);
    var e := Failed(p, faults[p]);
    StrictMain(fs, faults, cwd, version, argv, k);
    assert Catch(Raised(e)) == Exit(1, [Problem(e.message)]);
    var reported := Reports(cwd, ps[..k]);
    assert forall i | 0 <= i < |reported| :: reported[i].Info?;
  }

  lemma StrictMain(fs: Fs, faults: map<Path, Errno>, cwd: Path, version: string, argv: seq<string>, k: nat)
    requires FirstRejected(argv).None? && Spells(argv, Strict) && !Spells(argv, Help) && !Spells(argv, Version)
    requires k < |PathsOf(argv)| && Fatal(faults, Resolve(cwd, PathsOf(argv)[k]))
    requires forall j | 0 <= j < k :: !Fatal(faults, Resolve(cwd, PathsOf(argv)[j]))
    ensures var ps := PathsOf(argv);
      var p := Resolve(cwd, ps[k]);
      var force := Spells(argv, Force);
      Main(fs, faults, cwd, version, argv)
        == Thrown(RemoveAll(fs, faults, cwd, ps, force, true).fs, Attempts(cwd, ps[..k + 1], force),
                  Reports(cwd, ps[..k]), Failed(p, faults[p]))
  {
    var ps := PathsOf(argv);
    ParseClosedForm(argv);
    SpellsSwitch(argv, Strict);
    SpellsSwitch(argv, Help);
    SpellsSwitch(argv, Version);
    SpellsSwitch(argv, Force);
    var force := Spells(argv, Force);
    var args := DeleteArgs(force, true, false, false, ps);
    assert Scan(Defaults, argv) == Success(args);
    var p := Resolve(cwd, ps[k]);
    var e := Failed(p, faults[p]);
    StrictStopsAtFirstFailure(fs, faults, cwd, ps, force, k);
    var b := RemoveAll(fs, faults, cwd, ps, force, true);
    assert b.failure == Some(e);
  }
}
