/** `parseArgs` of the `ourcopy` tool: a left-to-right scan of the command
    line tokens that fills a `CopyArgs` record. */
module CopyCli {
  import opened Wrappers
  import opened Text
  import opened CliErrors
  import opened CopyErrors
  import opened Seqs

  datatype CopyArgs = CopyArgs(
    force: bool,
    source: Option<string>,
    destination: Option<string>,
    preserveSymlinks: bool,
    rename: Option<string>,
    help: bool,
    version: bool,
    dryRun: bool)

  /** The record before any token is read. */
  const Defaults: CopyArgs := CopyArgs(false, None, None, false, None, false, false, false)

  /** The options without a value. */
  datatype Switch = Force | PreserveSymlinks | Help | DryRun | Version

  /** The switch a token spells, in its long or its short form. */
  function SwitchOf(t: string): Option<Switch> {
    if t == "--force" || t == "-f" then Some(Force)
    else if t == "--preserve-symlinks" || t == "-p" then Some(PreserveSymlinks)
    else if t == "--help" || t == "-h" then Some(Help)
    else if t == "--dry-run" || t == "-n" then Some(DryRun)
    else if t == "--version" || t == "-v" then Some(Version)
    else None
  }

  predicate IsRenameOption(t: string) {
    t == "--rename" || t == "-r"
  }

  /** A token `--rename` accepts as its value: not empty and not looking
      like an option. */
  predicate IsRenameValue(t: string) {
    t != [] && !StartsWith(t, "-")
  }

  /** `a` with the boolean of `s` set. */
  function Turn(a: CopyArgs, s: Switch): CopyArgs {
    match s
    case Force => a.(force := true)
    case PreserveSymlinks => a.(preserveSymlinks := true)
    case Help => a.(help := true)
    case DryRun => a.(dryRun := true)
    case Version => a.(version := true)
  }

  const MissingRename: Error := NewCliError(MissingRenameValue, "Missing value for --rename option.")
  const TooMany: Error := NewCliError(TooManyArgs, "Too many arguments provided.")

  function UnknownOption(arg: string): Error {
    NewCliError(TooManyArgs, "Unknown option: " + arg)
  }

  /** A positional token goes to the first free slot of source, destination. */
  function Place(a: CopyArgs, arg: string): Result<CopyArgs, Error> {
    if a.source.None? then Success(a.(source := Some(arg)))
    else if a.destination.None? then Success(a.(destination := Some(arg)))
    else Failure(TooMany)
  }

  /** What the loop makes of the tokens `ts` starting from the record `a`. */
  function Scan(a: CopyArgs, ts: seq<string>): (r: Result<CopyArgs, Error>)
    ensures r.Failure? ==> (r.error.exitCode == 1
      && (r.error.code == MissingRenameValue || r.error.code == TooManyArgs))
    decreases |ts|
  {
    if ts == [] then Success(a)
    else
      var arg := ts[0];
      match SwitchOf(arg)
      case Some(s) => Scan(Turn(a, s), ts[1..])
      case None =>
        if IsRenameOption(arg) then
          if |ts| < 2 || !IsRenameValue(ts[1]) then Failure(MissingRename)
          else Scan(a.(rename := Some(ts[1])), ts[2..])
        else if StartsWith(arg, "-") then Failure(UnknownOption(arg))
        else
          match Place(a, arg)
          case Success(b) => Scan(b, ts[1..])
          case Failure(e) => Failure(e)
  }

  // One step of the scan, each unfolded on its own.

  lemma ScanSwitch(a: CopyArgs, ts: seq<string>)
    requires ts != [] && SwitchOf(ts[0]).Some?
    ensures Scan(a, ts) == Scan(Turn(a, SwitchOf(ts[0]).value), ts[1..])
  {
  }

  lemma ScanRename(a: CopyArgs, ts: seq<string>)
    requires |ts| >= 2 && IsRenameOption(ts[0]) && IsRenameValue(ts[1])
    ensures Scan(a, ts) == Scan(a.(rename := Some(ts[1])), ts[2..])
  {
    assert SwitchOf(ts[0]) == None by {
      assert ts[0] == "--rename" || ts[0] == "-r";
    }
  }

  lemma ScanPlain(a: CopyArgs, ts: seq<string>)
    requires ts != [] && SwitchOf(ts[0]).None? && !IsRenameOption(ts[0]) && !StartsWith(ts[0], "-")
    ensures Place(a, ts[0]).Success? ==> Scan(a, ts) == Scan(Place(a, ts[0]).value, ts[1..])
    ensures Place(a, ts[0]).Failure? ==> Scan(a, ts) == Failure(TooMany)
  {
  }

  /** `parseArgs(argv)`; a thrown `CliError` is a `Failure`. */
  method ParseArgs(argv: seq<string>) returns (r: Result<CopyArgs, Error>)
    ensures r == Scan(Defaults, argv)
    ensures argv == [] ==> r == Success(Defaults)
  {
    var args := Defaults;
    var i := 0;
    while i < |argv|
      invariant 0 <= i <= |argv|
      invariant Scan(args, argv[i..]) == Scan(Defaults, argv)
    {
      var next, j := ReadToken(args, argv, i);
      if next.Failure? {
        return next;
      }
      args, i := next.value, j;
    }
    return Success(args);
  }

  /** One pass of the loop of `parseArgs`: the token at `i`, and its value
      for `--rename`, read into `args`; `j` is where the next pass starts. */
  method ReadToken(args: CopyArgs, argv: seq<string>, i: nat) returns (next: Result<CopyArgs, Error>, j: nat)
    requires i < |argv|
    ensures i < j <= |argv|
    ensures next.Failure? ==> next == Scan(args, argv[i..])
    ensures next.Success? ==> Scan(args, argv[i..]) == Scan(next.value, argv[j..])
  {
    var arg := argv[i];
    assert argv[i..][1..] == argv[i + 1..];
    j := i + 1;
    if arg == "--force" || arg == "-f" {
      ScanSwitch(args, argv[i..]);
      next := Success(args.(force := true));
    } else if arg == "--preserve-symlinks" || arg == "-p" {
      ScanSwitch(args, argv[i..]);
      next := Success(args.(preserveSymlinks := true));
    } else if arg == "--rename" || arg == "-r" {
      if i + 1 >= |argv| || argv[i + 1] == [] || StartsWith(argv[i + 1], "-") {
        RenameAtFront(args, arg, argv[i + 1..]);
        assert [arg] + argv[i + 1..] == argv[i..];
        return Failure(MissingRename), j;
      }
      ScanRename(args, argv[i..]);
      assert argv[i..][2..] == argv[i + 2..];
      next, j := Success(args.(rename := Some(argv[i + 1]))), i + 2;
    } else if arg == "--help" || arg == "-h" {
      ScanSwitch(args, argv[i..]);
      next := Success(args.(help := true));
    } else if arg == "--dry-run" || arg == "-n" {
      ScanSwitch(args, argv[i..]);
      next := Success(args.(dryRun := true));
    } else if arg == "--version" || arg == "-v" {
      ScanSwitch(args, argv[i..]);
      next := Success(args.(version := true));
    } else {
      if StartsWith(arg, "-") {
        UnknownAtFront(args, arg, argv[i + 1..]);
        assert [arg] + argv[i + 1..] == argv[i..];
        return Failure(UnknownOption(arg)), j;
      }
      ScanPlain(args, argv[i..]);
      if args.source.None? {
        next := Success(args.(source := Some(arg)));
      } else if args.destination.None? {
        next := Success(args.(destination := Some(arg)));
      } else {
        next := Failure(TooMany);
      }
    }
  }

  // ---------------------------------------------------------------------
  // The record as a function of what the command line says, independent
  // of where each token stands.

  /** A command line read as words: a switch, `--rename` with its value, or
      a positional argument. */
  datatype Word = SwitchWord(token: string) | RenameWord(token: string, value: string) | PlainWord(text: string)

  /** The words the parser accepts one by one. */
  predicate WordOk(w: Word) {
    match w
    case SwitchWord(t) => SwitchOf(t).Some?
    case RenameWord(t, v) => IsRenameOption(t) && IsRenameValue(v)
    case PlainWord(s) => !StartsWith(s, "-")
  }

  predicate AllOk(ws: seq<Word>) {
    forall i | 0 <= i < |ws| :: WordOk(ws[i])
  }

  function TokensOf(w: Word): seq<string> {
    match w
    case SwitchWord(t) => [t]
    case RenameWord(t, v) => [t, v]
    case PlainWord(s) => [s]
  }

  /** The command line the words spell. */
  function Tokens(ws: seq<Word>): seq<string>
    decreases |ws|
  {
    if ws == [] then [] else TokensOf(ws[0]) + Tokens(ws[1..])
  }

  /** The positional arguments, in order. */
  function Plains(ws: seq<Word>): seq<string>
    decreases |ws|
  {
    if ws == [] then []
    else Plains(ws[..|ws| - 1]) + (if ws[|ws| - 1].PlainWord? then [ws[|ws| - 1].text] else [])
  }

  /** The `--rename` values, in order. */
  function Renames(ws: seq<Word>): seq<string>
    decreases |ws|
  {
    if ws == [] then []
    else Renames(ws[..|ws| - 1]) + (if ws[|ws| - 1].RenameWord? then [ws[|ws| - 1].value] else [])
  }

  /** Some word is switch `s`, in either spelling. */
  predicate HasSwitch(ws: seq<Word>, s: Switch) {
    exists i | 0 <= i < |ws| :: ws[i].SwitchWord? && SwitchOf(ws[i].token) == Some(s)
  }

  function NthOr(xs: seq<string>, n: nat): Option<string> {
    if n < |xs| then Some(xs[n]) else None
  }

  /** The record a command line of at most two positionals yields: each
      boolean set when its switch occurs anywhere, the first and second
      positional as source and destination, the last `--rename` value. */
  function Record(ws: seq<Word>): CopyArgs {
    var renames := Renames(ws);
    CopyArgs(
      force := HasSwitch(ws, Force),
      source := NthOr(Plains(ws), 0),
      destination := NthOr(Plains(ws), 1),
      preserveSymlinks := HasSwitch(ws, PreserveSymlinks),
      rename := if renames == [] then None else Some(renames[|renames| - 1]),
      help := HasSwitch(ws, Help),
      version := HasSwitch(ws, Version),
      dryRun := HasSwitch(ws, DryRun))
  }

  /** One word's effect on the record. */
  function Step(a: CopyArgs, w: Word): Result<CopyArgs, Error>
    requires WordOk(w)
  {
    match w
    case SwitchWord(t) => Success(Turn(a, SwitchOf(t).value))
    case RenameWord(_, v) => Success(a.(rename := Some(v)))
    case PlainWord(s) => Place(a, s)
  }

  /** The words' effect on the record, one after the other. */
  function Run(a: CopyArgs, ws: seq<Word>): Result<CopyArgs, Error>
    requires AllOk(ws)
    decreases |ws|
  {
    if ws == [] then Success(a)
    else
      match Step(a, ws[0])
      case Success(b) => Run(b, ws[1..])
      case Failure(e) => Failure(e)
  }

  /** The scan of `ts` after a partial result: stopped at a failure, or
      continued from the record reached. */
  function Resume(r: Result<CopyArgs, Error>, ts: seq<string>): Result<CopyArgs, Error> {
    match r
    case Success(a) => Scan(a, ts)
    case Failure(e) => Failure(e)
  }

  /** Reading the tokens of a word list is reading the words. */
  lemma {:induction false} ScanWords(a: CopyArgs, ws: seq<Word>, rest: seq<string>)
    requires AllOk(ws)
    ensures Scan(a, Tokens(ws) + rest) == Resume(Run(a, ws), rest)
    decreases |ws|
  {
    if ws != [] {
      var w := ws[0];
      var tail := Tokens(ws[1..]) + rest;
      assert Tokens(ws) + rest == TokensOf(w) + tail;
      ScanFirstWord(a, w, tail);
      match Step(a, w)
      case Success(b) => ScanWords(b, ws[1..], rest);
      case Failure(e) =>
    } else {
      assert Tokens(ws) + rest == rest;
    }
  }

  /** The tokens of one accepted word take the loop one word further. */
  lemma ScanFirstWord(a: CopyArgs, w: Word, tail: seq<string>)
    requires WordOk(w)
    ensures Scan(a, TokensOf(w) + tail) == Resume(Step(a, w), tail)
  {
    var ts := TokensOf(w) + tail;
    match w
    case SwitchWord(t) =>
      assert ts[0] == t && ts[1..] == tail;
    case RenameWord(t, v) =>
      assert ts[0] == t && ts[1] == v && ts[2..] == tail;
      assert SwitchOf(t).None?;
    case PlainWord(p) =>
      assert ts[0] == p && ts[1..] == tail;
      assert SwitchOf(p).None? && !IsRenameOption(p);
  }

  lemma {:induction false} RunSnoc(a: CopyArgs, ws: seq<Word>, w: Word)
    requires AllOk(ws) && WordOk(w)
    ensures AllOk(ws + [w])
    ensures Run(a, ws + [w]) == match Run(a, ws) case Success(b) => Step(b, w) case Failure(e) => Failure(e)
    decreases |ws|
  {
    if ws == [] {
      assert [w][1..] == [];
    } else {
      assert (ws + [w])[1..] == ws[1..] + [w];
      match Step(a, ws[0])
      case Success(b) => RunSnoc(b, ws[1..], w);
      case Failure(e) =>
    }
  }

  lemma HasSwitchSnoc(ws: seq<Word>, w: Word, s: Switch)
    ensures HasSwitch(ws + [w], s) <==> HasSwitch(ws, s) || (w.SwitchWord? && SwitchOf(w.token) == Some(s))
  {
    var ext := ws + [w];
    if HasSwitch(ext, s) {
      var i :| 0 <= i < |ext| && ext[i].SwitchWord? && SwitchOf(ext[i].token) == Some(s);
      if i < |ws| {
        assert ws[i] == ext[i];
      }
    }
    if HasSwitch(ws, s) {
      var i :| 0 <= i < |ws| && ws[i].SwitchWord? && SwitchOf(ws[i].token) == Some(s);
      assert ext[i] == ws[i];
    }
    if w.SwitchWord? && SwitchOf(w.token) == Some(s) {
      assert ext[|ws|] == w;
    }
  }

  /** The record of `ws` follows from one word more, the way `Step` reads it. */
  lemma RecordSnoc(ws: seq<Word>, w: Word)
    requires WordOk(w) && |Plains(ws + [w])| <= 2
    ensures Step(Record(ws), w) == Success(Record(ws + [w]))
  {
    var ext := ws + [w];
    assert ext[..|ext| - 1] == ws;
    forall s: Switch
      ensures HasSwitch(ext, s) <==> HasSwitch(ws, s) || (w.SwitchWord? && SwitchOf(w.token) == Some(s))
    {
      HasSwitchSnoc(ws, w, s);
    }
    match w
    case SwitchWord(t) => SwitchSnoc(ws, t);
    case RenameWord(t, v) => RenameSnoc(ws, t, v);
    case PlainWord(p) => PlainSnoc(ws, p);
  }

  lemma SwitchSnoc(ws: seq<Word>, t: string)
    requires SwitchOf(t).Some?
    requires forall s: Switch :: HasSwitch(ws + [SwitchWord(t)], s) <==> HasSwitch(ws, s) || SwitchOf(t) == Some(s)
    ensures Record(ws + [SwitchWord(t)]) == Turn(Record(ws), SwitchOf(t).value)
  {
    var ext := ws + [SwitchWord(t)];
    assert ext[..|ext| - 1] == ws;
    assert Plains(ext) == Plains(ws) && Renames(ext) == Renames(ws);
    var before, after := Record(ws), Record(ext);
    match SwitchOf(t).value {
      case Force => assert after == before.(force := true);
      case PreserveSymlinks => assert after == before.(preserveSymlinks := true);
      case Help => assert after == before.(help := true);
      case DryRun => assert after == before.(dryRun := true);
      case Version => assert after == before.(version := true);
    }
  }

  lemma RenameSnoc(ws: seq<Word>, t: string, v: string)
    requires forall s: Switch :: HasSwitch(ws + [RenameWord(t, v)], s) <==> HasSwitch(ws, s)
    ensures Record(ws + [RenameWord(t, v)]) == Record(ws).(rename := Some(v))
  {
    var ext := ws + [RenameWord(t, v)];
    assert ext[..|ext| - 1] == ws;
    assert Plains(ext) == Plains(ws) && Renames(ext) == Renames(ws) + [v];
  }

  lemma PlainSnoc(ws: seq<Word>, p: string)
    requires |Plains(ws + [PlainWord(p)])| <= 2
    requires forall s: Switch :: HasSwitch(ws + [PlainWord(p)], s) <==> HasSwitch(ws, s)
    ensures Place(Record(ws), p) == Success(Record(ws + [PlainWord(p)]))
  {
    var ext := ws + [PlainWord(p)];
    assert ext[..|ext| - 1] == ws;
    assert Plains(ext) == Plains(ws) + [p] && Renames(ext) == Renames(ws);
    PlaceNext(Record(ws), Plains(ws), p);
  }

  lemma PlaceNext(a: CopyArgs, ps: seq<string>, p: string)
    requires |ps| < 2 && a.source == NthOr(ps, 0) && a.destination == NthOr(ps, 1)
    ensures Place(a, p) == Success(a.(source := NthOr(ps + [p], 0), destination := NthOr(ps + [p], 1)))
  {
  }

  /** With more than two positionals the word list fails as the third one
      is read. */
  lemma {:induction false} RunIsRecord(ws: seq<Word>)
    requires AllOk(ws)
    ensures Run(Defaults, ws) == if |Plains(ws)| <= 2 then Success(Record(ws)) else Failure(TooMany)
    decreases |ws|
  {
    if ws == [] {
      assert forall s: Switch :: !HasSwitch(ws, s);
    } else {
      var init, w := ws[..|ws| - 1], ws[|ws| - 1];
      assert ws == init + [w];
      assert AllOk(init) by {
        assert forall i | 0 <= i < |init| :: init[i] == ws[i];
      }
      RunIsRecord(init);
      RunSnoc(Defaults, init, w);
      if |Plains(init)| <= 2 {
        if |Plains(ws)| <= 2 {
          RecordSnoc(init, w);
        } else {
          assert |Plains(init)| == 2 && w.PlainWord?;
          assert Record(init).source.Some? && Record(init).destination.Some?;
        }
      }
    }
  }

  /** The closed form: a command line made of accepted words yields the
      record of what it says, or the too-many-arguments error. */
  lemma ParseOfWords(ws: seq<Word>)
    requires AllOk(ws)
    ensures Scan(Defaults, Tokens(ws)) == if |Plains(ws)| <= 2 then Success(Record(ws)) else Failure(TooMany)
  {
    ScanWords(Defaults, ws, []);
    assert Tokens(ws) + [] == Tokens(ws);
    RunIsRecord(ws);
  }

  /** Moving switches and `--rename` pairs around the two positional
      arguments does not change the record. */
  lemma InterleavingDoesNotMatter(ws1: seq<Word>, ws2: seq<Word>)
    requires AllOk(ws1) && AllOk(ws2)
    requires Plains(ws1) == Plains(ws2) && Renames(ws1) == Renames(ws2)
    requires forall s: Switch :: HasSwitch(ws1, s) == HasSwitch(ws2, s)
    ensures Scan(Defaults, Tokens(ws1)) == Scan(Defaults, Tokens(ws2))
  {
    ParseOfWords(ws1);
    ParseOfWords(ws2);
  }

  /** An unknown option after accepted words fails with TOO_MANY_ARGS,
      whatever follows it. */
  lemma UnknownOptionFails(ws: seq<Word>, t: string, rest: seq<string>)
    requires AllOk(ws) && |Plains(ws)| <= 2
    requires StartsWith(t, "-") && SwitchOf(t).None? && !IsRenameOption(t)
    ensures Scan(Defaults, Tokens(ws) + [t] + rest) == Failure(UnknownOption(t))
    ensures UnknownOption(t).code == TooManyArgs
  {
    ScanWords(Defaults, ws, [t] + rest);
    RunIsRecord(ws);
    AppendAssoc(Tokens(ws), [t], rest);
    UnknownAtFront(Record(ws), t, rest);
  }

  lemma UnknownAtFront(a: CopyArgs, t: string, rest: seq<string>)
    requires StartsWith(t, "-") && SwitchOf(t).None? && !IsRenameOption(t)
    ensures Scan(a, [t] + rest) == Failure(UnknownOption(t))
  {
    assert ([t] + rest)[0] == t;
  }

  /** `--rename` at the end, or before an empty or option-like token, fails
      with MISSING_RENAME_VALUE. */
  lemma RenameWithoutValueFails(ws: seq<Word>, t: string, rest: seq<string>)
    requires AllOk(ws) && |Plains(ws)| <= 2
    requires IsRenameOption(t) && (rest == [] || !IsRenameValue(rest[0]))
    ensures Scan(Defaults, Tokens(ws) + [t] + rest) == Failure(MissingRename)
  {
    ScanWords(Defaults, ws, [t] + rest);
    RunIsRecord(ws);
    AppendAssoc(Tokens(ws), [t], rest);
    RenameAtFront(Record(ws), t, rest);
  }

  lemma RenameAtFront(a: CopyArgs, t: string, rest: seq<string>)
    requires IsRenameOption(t) && (rest == [] || !IsRenameValue(rest[0]))
    ensures Scan(a, [t] + rest) == Failure(MissingRename)
  {
    assert SwitchOf(t) == None by {
      assert t == "--rename" || t == "-r";
    }
    var ts := [t] + rest;
    assert ts[0] == t;
    assert |ts| >= 2 ==> ts[1] == rest[0];
  }

  /** `--help` does not end the scan: an error later on the line is still
      reported. */
  lemma HelpKeepsScanning(ws: seq<Word>, t: string, rest: seq<string>)
    requires AllOk(ws) && |Plains(ws)| <= 2
    requires StartsWith(t, "-") && SwitchOf(t).None? && !IsRenameOption(t)
    ensures Scan(Defaults, Tokens(ws) + ["--help"] + [t] + rest) == Failure(UnknownOption(t))
  {
    var ws' := ws + [SwitchWord("--help")];
    RunSnoc(Defaults, ws, SwitchWord("--help"));
    assert Plains(ws') == Plains(ws) by {
      assert ws'[..|ws'| - 1] == ws;
    }
    assert Tokens(ws') == Tokens(ws) + ["--help"] by {
      TokensSnoc(ws, SwitchWord("--help"));
    }
    assert Tokens(ws) + ["--help"] + [t] + rest == Tokens(ws') + [t] + rest;
    UnknownOptionFails(ws', t, rest);
  }

  lemma {:induction false} TokensSnoc(ws: seq<Word>, w: Word)
    ensures Tokens(ws + [w]) == Tokens(ws) + TokensOf(w)
    decreases |ws|
  {
    if ws == [] {
      assert [w][1..] == [];
    } else {
      assert (ws + [w])[1..] == ws[1..] + [w];
      TokensSnoc(ws[1..], w);
    }
  }

}
