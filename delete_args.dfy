/** `parseArgs` of the `ourdelete` tool: every token is a switch, an
    unknown option, or a path to delete. */
module DeleteCli {
  import opened Wrappers
  import opened Text
  import opened CliErrors
  import opened DeleteErrors

  datatype DeleteArgs = DeleteArgs(force: bool, strict: bool, help: bool, version: bool, paths: seq<string>)

  /** The record before any token is read. */
  const Defaults: DeleteArgs := DeleteArgs(false, false, false, false, [])

  datatype Switch = Force | Strict | Help | Version

  /** The switch a token spells, in its long or its short form. */
  function SwitchOf(t: string): Option<Switch> {
    if t == "--force" || t == "-f" then Some(Force)
    else if t == "--strict" || t == "-s" then Some(Strict)
    else if t == "--help" || t == "-h" then Some(Help)
    else if t == "--version" || t == "-v" then Some(Version)
    else None
  }

  /** Every switch starts with `-`, so none is ever taken for a path. */
  lemma SwitchStartsWithDash(t: string)
    requires SwitchOf(t).Some?
    ensures StartsWith(t, "-")
  {
  }

  /** `a` with the boolean of `s` set. */
  function Turn(a: DeleteArgs, s: Switch): DeleteArgs {
    match s
    case Force => a.(force := true)
    case Strict => a.(strict := true)
    case Help => a.(help := true)
    case Version => a.(version := true)
  }

  function UnknownOption(arg: string): Error {
    NewCliError(TooManyArgs, "Unknown option: " + arg)
  }

  /** What the loop makes of the tokens `ts` starting from the record `a`. */
  function Scan(a: DeleteArgs, ts: seq<string>): (r: Result<DeleteArgs, Error>)
    ensures r.Failure? ==> r.error.code == TooManyArgs && r.error.exitCode == 1
    ensures r.Success? ==> |r.value.paths| <= |a.paths| + |ts|
    decreases |ts|
  {
    if ts == [] then Success(a)
    else
      var arg := ts[0];
      match SwitchOf(arg)
      case Some(s) => Scan(Turn(a, s), ts[1..])
      case None =>
        if StartsWith(arg, "-") then Failure(UnknownOption(arg))
        else Scan(a.(paths := a.paths + [arg]), ts[1..])
  }

  /** `parseArgs(argv)`; a thrown `CliError` is a `Failure`. */
  method ParseArgs(argv: seq<string>) returns (r: Result<DeleteArgs, Error>)
    ensures r == Scan(Defaults, argv)
  {
    var out := Defaults;
    var i := 0;
    while i < |argv|
      invariant 0 <= i <= |argv|
      invariant Scan(out, argv[i..]) == Scan(Defaults, argv)
    {
      var arg := argv[i];
      assert argv[i..][1..] == argv[i + 1..];
      if arg == "--force" || arg == "-f" {
        out := out.(force := true);
      } else if arg == "--strict" || arg == "-s" {
        out := out.(strict := true);
      } else if arg == "--help" || arg == "-h" {
        out := out.(help := true);
      } else if arg == "--version" || arg == "-v" {
        out := out.(version := true);
      } else {
        if StartsWith(arg, "-") {
          return Failure(UnknownOption(arg));
        }
        out := out.(paths := out.paths + [arg]);
      }
      i := i + 1;
    }
    return Success(out);
  }

  // ---------------------------------------------------------------------
  // The record as a function of the token list as a whole.

  /** A token the parser accepts: a switch, or anything not starting with `-`. */
  predicate Accepted(t: string) {
    SwitchOf(t).Some? || !StartsWith(t, "-")
  }

  /** The first token the parser rejects, if any. */
  function FirstRejected(ts: seq<string>): (r: Option<string>)
    ensures r.Some? ==> r.value in ts && !Accepted(r.value)
    ensures r.None? <==> forall i | 0 <= i < |ts| :: Accepted(ts[i])
    decreases |ts|
  {
    if ts == [] then None
    else if !Accepted(ts[0]) then Some(ts[0])
    else
      var r := FirstRejected(ts[1..]);
      assert forall i | 1 <= i < |ts| :: ts[i] == ts[1..][i - 1];
      r
  }

  /** The tokens that do not start with `-`, in their order. */
  function PathsOf(ts: seq<string>): (ps: seq<string>)
    ensures forall i | 0 <= i < |ps| :: !StartsWith(ps[i], "-")
    ensures forall t | t in ts && !StartsWith(t, "-") :: t in ps
    ensures forall p | p in ps :: p in ts
    decreases |ts|
  {
    if ts == [] then []
    else (if StartsWith(ts[0], "-") then [] else [ts[0]]) + PathsOf(ts[1..])
  }

  /** Only options: no paths. */
  lemma {:induction false} PathsOfOptions(ts: seq<string>)
    requires forall i | 0 <= i < |ts| :: StartsWith(ts[i], "-")
    ensures PathsOf(ts) == []
    decreases |ts|
  {
    if ts != [] {
      assert forall i | 1 <= i < |ts| :: ts[1..][i - 1] == ts[i];
      PathsOfOptions(ts[1..]);
    }
  }

  /** The switches spelled anywhere in `ts`. */
  function SwitchesIn(ts: seq<string>): set<Switch> {
    set i | 0 <= i < |ts| && SwitchOf(ts[i]).Some? :: SwitchOf(ts[i]).value
  }

  /** The record `ts` yields from `a`: each switch present sets its
      boolean, and every token not starting with `-` is appended to
      `paths`. */
  function Record(a: DeleteArgs, ts: seq<string>): DeleteArgs {
    var on := SwitchesIn(ts);
    DeleteArgs(
      force := a.force || Force in on,
      strict := a.strict || Strict in on,
      help := a.help || Help in on,
      version := a.version || Version in on,
      paths := a.paths + PathsOf(ts))
  }

  lemma SwitchesInCons(t: string, ts: seq<string>)
    ensures SwitchesIn([t] + ts) == (if SwitchOf(t).Some? then {SwitchOf(t).value} else {}) + SwitchesIn(ts)
  {
    var whole := [t] + ts;
    assert forall i | 1 <= i < |whole| :: whole[i] == ts[i - 1];
    forall s | s in SwitchesIn(ts)
      ensures s in SwitchesIn(whole)
    {
      var i :| 0 <= i < |ts| && SwitchOf(ts[i]).Some? && SwitchOf(ts[i]).value == s;
      assert whole[i + 1] == ts[i];
    }
    if SwitchOf(t).Some? {
      assert whole[0] == t;
    }
  }

  lemma RecordAfterSwitch(a: DeleteArgs, t: string, rest: seq<string>)
    requires SwitchOf(t).Some?
    ensures Record(Turn(a, SwitchOf(t).value), rest) == Record(a, [t] + rest)
  {
    var ts := [t] + rest;
    var s := SwitchOf(t).value;
    SwitchesInCons(t, rest);
    SwitchStartsWithDash(t);
    assert ts[0] == t && ts[1..] == rest;
    assert PathsOf(ts) == PathsOf(rest);
    TurnSets(a, s);
    var on := SwitchesIn(rest);
    assert forall x: Switch :: x in SwitchesIn(ts) <==> x == s || x in on;
  }

  /** The fields `Turn` sets, one per switch. */
  lemma TurnSets(a: DeleteArgs, s: Switch)
    ensures var b := Turn(a, s);
      b.force == (a.force || s == Force) && b.strict == (a.strict || s == Strict)
      && b.help == (a.help || s == Help) && b.version == (a.version || s == Version)
      && b.paths == a.paths
  {
  }

  lemma RecordAfterPath(a: DeleteArgs, t: string, rest: seq<string>)
    requires SwitchOf(t).None? && !StartsWith(t, "-")
    ensures Record(a.(paths := a.paths + [t]), rest) == Record(a, [t] + rest)
  {
    SwitchesInCons(t, rest);
    assert ([t] + rest)[1..] == rest;
    assert PathsOf([t] + rest) == [t] + PathsOf(rest);
    assert a.paths + [t] + PathsOf(rest) == a.paths + ([t] + PathsOf(rest));
  }

  /** The closed form: a token list fails at its first rejected token, and
      otherwise yields `Record`. */
  lemma {:induction false} ScanIsRecord(a: DeleteArgs, ts: seq<string>)
    ensures Scan(a, ts) == match FirstRejected(ts)
      case Some(t) => Failure(UnknownOption(t))
      case None => Success(Record(a, ts))
    decreases |ts|
  {
    if ts == [] {
      assert Record(a, ts) == a;
    } else {
      var t, rest := ts[0], ts[1..];
      assert ts == [t] + rest;
      if SwitchOf(t).Some? {
        ScanIsRecord(Turn(a, SwitchOf(t).value), rest);
        RecordAfterSwitch(a, t, rest);
      } else if !StartsWith(t, "-") {
        ScanIsRecord(a.(paths := a.paths + [t]), rest);
        RecordAfterPath(a, t, rest);
      }
    }
  }

  /** `parseArgs` on its own: the first rejected token is reported as an
      unknown option with TOO_MANY_ARGS; otherwise every switch present is
      set and `paths` is exactly the tokens not starting with `-`, in order,
      however many there are. */
  lemma ParseClosedForm(ts: seq<string>)
    ensures Scan(Defaults, ts) == match FirstRejected(ts)
      case Some(t) => Failure(UnknownOption(t))
      case None => Success(DeleteArgs(
        force := Force in SwitchesIn(ts),
        strict := Strict in SwitchesIn(ts),
        help := Help in SwitchesIn(ts),
        version := Version in SwitchesIn(ts),
        paths := PathsOf(ts)))
  {
    ScanIsRecord(Defaults, ts);
    assert [] + PathsOf(ts) == PathsOf(ts);
  }
}
