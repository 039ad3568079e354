/** `parseArgs` of the `our-icon-gen` tool: three positional slots, three
    switches and `--sizes <list>`, whose list is parsed on the spot. */
module IconCli {
  import opened Wrappers
  import opened Text
  import opened CliErrors
  import opened IconErrors
  import opened Seqs

  datatype IconArgs = IconArgs(
    source: Option<string>, destination: Option<string>, name: Option<string>,
    sizes: Option<seq<int>>, dryRun: bool, help: bool, version: bool)

  /** The record before any token is read: every slot `null`, every switch off. */
  const Defaults: IconArgs := IconArgs(None, None, None, None, false, false, false)

  const MissingSizesMessage := "Missing value for --sizes option."
  const InvalidSizesMessage := "Invalid sizes list. Provide comma-separated positive integers."
  const TooManyMessage := "Too many arguments provided."

  function UnknownOption(arg: string): Error {
    NewCliError(TooManyArgs, "Unknown option: " + arg)
  }

  // ---------------------------------------------------------------------
  // The size list: split on commas, trim, drop empty parts, parseInt each.

  /** `parts.map((p) => p.trim()).filter(Boolean)`. */
  function Kept(parts: seq<string>): (r: seq<string>)
    ensures |r| <= |parts|
    ensures forall i | 0 <= i < |r| :: r[i] != []
    decreases |parts|
  {
    if parts == [] then []
    else
      var t := Trim(parts[0]);
      (if t == [] then [] else [t]) + Kept(parts[1..])
  }

  /** The parts of a `--sizes` value that reach `parseInt`. */
  function SizeParts(value: string): seq<string> {
    Kept(Split(value, ','))
  }

  /** `parts.map((p) => Number.parseInt(p, 10))`, NaN being None. */
  function Numbers(parts: seq<string>): seq<Option<int>> {
    seq(|parts|, i requires 0 <= i < |parts| => ParseInt(parts[i]))
  }

  /** `!numbers.some((n) => Number.isNaN(n) || n <= 0)`. */
  predicate AllPositive(numbers: seq<Option<int>>) {
    forall i | 0 <= i < |numbers| :: numbers[i].Some? && numbers[i].value > 0
  }

  function Values(numbers: seq<Option<int>>): (vs: seq<int>)
    requires AllPositive(numbers)
    ensures |vs| == |numbers|
    ensures forall i | 0 <= i < |vs| :: vs[i] > 0 && numbers[i] == Some(vs[i])
  {
    seq(|numbers|, i requires 0 <= i < |numbers| => numbers[i].value)
  }

  /** The sizes of a `--sizes` value, or INVALID_SIZES when some part is NaN
      or not positive. */
  function ParseSizes(value: string): (r: Result<seq<int>, Error>)
    ensures r.Success? ==> forall i | 0 <= i < |r.value| :: r.value[i] > 0
    ensures r.Failure? ==> r.error == NewCliError(InvalidSizes, InvalidSizesMessage)
  {
    var numbers := Numbers(SizeParts(value));
    if AllPositive(numbers) then Success(Values(numbers))
    else Failure(NewCliError(InvalidSizes, InvalidSizesMessage))
  }

  /** A comma-separated part `parseSizes` accepts: blank, or once trimmed
      read by `parseInt` as a positive integer. */
  predicate PartOk(p: string) {
    var t := Trim(p);
    t != [] ==> ParseInt(t).Some? && ParseInt(t).value > 0
  }

  /** A list is accepted exactly when each of its comma-separated parts is
      blank or reads, once trimmed, as a positive integer. */
  lemma ParseSizesMeaning(value: string)
    ensures var parts := Split(value, ',');
      ParseSizes(value).Success? <==> forall i | 0 <= i < |parts| :: PartOk(parts[i])
  {
    AcceptedWhenAllPositive(value);
    KeptPositive(Split(value, ','));
  }

  lemma AcceptedWhenAllPositive(value: string)
    ensures ParseSizes(value).Success? <==> AllPositive(Numbers(Kept(Split(value, ','))))
  {
  }

  lemma {:induction false} KeptPositive(parts: seq<string>)
    ensures AllPositive(Numbers(Kept(parts))) <==> forall i | 0 <= i < |parts| :: PartOk(parts[i])
    decreases |parts|
  {
    if parts != [] {
      KeptPositive(parts[1..]);
      var head := KeptOne(parts[0]);
      var k := Kept(parts[1..]);
      assert Kept(parts) == head + k;
      NumbersAppend(head, k);
      AllPositiveAppend(Numbers(head), Numbers(k));
      KeptOneOk(parts[0]);
      PartsOkCons(parts);
    }
  }

  /** What `trim` and `filter(Boolean)` keep of one part. */
  function KeptOne(p: string): seq<string> {
    if Trim(p) == [] then [] else [Trim(p)]
  }

  lemma KeptOneOk(p: string)
    ensures AllPositive(Numbers(KeptOne(p))) <==> PartOk(p)
  {
    if Trim(p) == [] {
      assert Numbers(KeptOne(p)) == [];
    } else {
      assert Numbers(KeptOne(p)) == [ParseInt(Trim(p))];
      SinglePositive(ParseInt(Trim(p)));
    }
  }

  lemma SinglePositive(n: Option<int>)
    ensures AllPositive([n]) <==> n.Some? && n.value > 0
  {
    assert [n][0] == n;
  }

  lemma PartsOkCons(parts: seq<string>)
    requires parts != []
    ensures (forall i | 0 <= i < |parts| :: PartOk(parts[i]))
      <==> PartOk(parts[0]) && forall i | 0 <= i < |parts[1..]| :: PartOk(parts[1..][i])
  {
    assert forall i | 1 <= i < |parts| :: parts[i] == parts[1..][i - 1];
  }

  lemma NumbersAppend(a: seq<string>, b: seq<string>)
    ensures Numbers(a + b) == Numbers(a) + Numbers(b)
  {
  }

  lemma AllPositiveAppend(a: seq<Option<int>>, b: seq<Option<int>>)
    ensures AllPositive(a + b) <==> AllPositive(a) && AllPositive(b)
  {
    if AllPositive(a) && AllPositive(b) {
      forall i | 0 <= i < |a + b|
        ensures (a + b)[i].Some? && (a + b)[i].value > 0
      {
        if i >= |a| { assert (a + b)[i] == b[i - |a|]; }
      }
    }
    if AllPositive(a + b) {
      assert forall i | 0 <= i < |a| :: (a + b)[i] == a[i];
      assert forall i | 0 <= i < |b| :: (a + b)[|a| + i] == b[i];
    }
  }

  /** `sizes.join(',')`: the list as one writes it on the command line. */
  function SizesText(ns: seq<int>): string
    requires |ns| > 0
  {
    JoinWith(Texts(ns), ',')
  }

  /** A part with something other than white space at both ends, which
      `trim` keeps as it is. */
  predicate Bare(p: string) {
    p != [] && !IsSpace(p[0]) && !IsSpace(p[|p| - 1])
  }

  lemma {:induction false} KeptBare(parts: seq<string>)
    requires forall i | 0 <= i < |parts| :: Bare(parts[i])
    ensures Kept(parts) == parts
    decreases |parts|
  {
    if parts != [] {
      var rest := parts[1..];
      assert forall i | 0 <= i < |rest| :: rest[i] == parts[i + 1];
      KeptBare(rest);
      TrimOfTrimmed(parts[0]);
      HeadTail(parts);
    }
  }

  /** The decimal text of an integer holds no comma and no white space. */
  lemma IntTextBare(n: int)
    ensures ',' !in IntText(n)
    ensures Bare(IntText(n))
  {
    var s := IntText(n);
    assert forall i | 0 <= i < |s| :: !IsSpace(s[i]) && s[i] != ',';
  }

  /** The text of each size that reaches `parseInt`. */
  function Texts(ns: seq<int>): seq<string> {
    seq(|ns|, i requires 0 <= i < |ns| => IntText(ns[i]))
  }

  lemma TextsWithoutComma(ns: seq<int>)
    ensures forall i | 0 <= i < |Texts(ns)| :: ',' !in Texts(ns)[i]
  {
    forall i | 0 <= i < |ns|
      ensures ',' !in Texts(ns)[i]
    {
      IntTextBare(ns[i]);
    }
  }

  lemma TextsBare(ns: seq<int>)
    ensures forall i | 0 <= i < |Texts(ns)| :: Bare(Texts(ns)[i])
  {
    forall i | 0 <= i < |ns|
      ensures Bare(Texts(ns)[i])
    {
      IntTextBare(ns[i]);
    }
  }

  /** Writing sizes out with commas and splitting them again gives each
      size's text, untouched by `trim` and the empty-part filter. */
  lemma SizePartsOfText(ns: seq<int>)
    requires |ns| > 0
    ensures SizeParts(SizesText(ns)) == Texts(ns)
  {
    TextsWithoutComma(ns);
    SplitJoinWith(Texts(ns), ',');
    TextsBare(ns);
    KeptBare(Texts(ns));
  }

  lemma NumbersOfTexts(ns: seq<int>)
    ensures Numbers(Texts(ns)) == seq(|ns|, i requires 0 <= i < |ns| => Some(ns[i]))
  {
    var texts := Texts(ns);
    forall i | 0 <= i < |ns|
      ensures ParseInt(texts[i]) == Some(ns[i])
    {
      ParseIntOfText(ns[i], []);
      assert texts[i] + [] == texts[i];
    }
  }

  /** Parsing a list of positive sizes written out with commas gives the
      list back. */
  lemma SizesRoundTrip(ns: seq<int>)
    requires |ns| > 0 && forall i | 0 <= i < |ns| :: ns[i] > 0
    ensures ParseSizes(SizesText(ns)) == Success(ns)
  {
    SizePartsOfText(ns);
    NumbersOfTexts(ns);
    var numbers := Numbers(Texts(ns));
    assert AllPositive(numbers);
    var vs := Values(numbers);
    assert forall i | 0 <= i < |ns| :: vs[i] == ns[i];
    assert vs == ns;
    assert Numbers(SizeParts(SizesText(ns))) == numbers;
  }

  /** A value of blanks and commas only is an empty list, not an error. */
  lemma {:induction false} BlankPartsGiveNoSizes(value: string)
    requires forall i | 0 <= i < |Split(value, ',')| :: Trim(Split(value, ',')[i]) == []
    ensures ParseSizes(value) == Success([])
  {
    KeptBlank(Split(value, ','));
  }

  lemma {:induction false} KeptBlank(parts: seq<string>)
    requires forall i | 0 <= i < |parts| :: Trim(parts[i]) == []
    ensures Kept(parts) == []
    decreases |parts|
  {
    if parts != [] {
      assert forall i | 1 <= i < |parts| :: parts[1..][i - 1] == parts[i];
      KeptBlank(parts[1..]);
    }
  }

  // ---------------------------------------------------------------------
  // The token loop.

  predicate SizesFlag(t: string) {
    t == "--sizes" || t == "-s"
  }

  /** `parsed.sizes` holds positive integers only, if anything. */
  predicate SizesOk(a: IconArgs) {
    a.sizes.Some? ==> forall i | 0 <= i < |a.sizes.value| :: a.sizes.value[i] > 0
  }

  /** A token that does not start with `-` goes to the first empty slot of
      `source`, `destination` and `name`; a fourth is TOO_MANY_ARGS. */
  function Place(a: IconArgs, arg: string): (r: Result<IconArgs, Error>)
    ensures r.Failure? <==> a.source.Some? && a.destination.Some? && a.name.Some?
    ensures r.Failure? ==> r.error == NewCliError(TooManyArgs, TooManyMessage)
    ensures r.Success? ==> (r.value.sizes == a.sizes && r.value.dryRun == a.dryRun
      && r.value.help == a.help && r.value.version == a.version)
  {
    if a.source.None? then Success(a.(source := Some(arg)))
    else if a.destination.None? then Success(a.(destination := Some(arg)))
    else if a.name.None? then Success(a.(name := Some(arg)))
    else Failure(NewCliError(TooManyArgs, TooManyMessage))
  }

  /** What the loop makes of the tokens `ts` starting from the record `a`. */
  function Scan(a: IconArgs, ts: seq<string>): (r: Result<IconArgs, Error>)
    ensures r.Failure? ==> (r.error.code == TooManyArgs || r.error.code == InvalidSizes) && r.error.exitCode == 1
    ensures r.Success? && SizesOk(a) ==> SizesOk(r.value)
    decreases |ts|
  {
    if ts == [] then Success(a)
    else
      var arg := ts[0];
      if SizesFlag(arg) then
        if |ts| < 2 || ts[1] == [] || StartsWith(ts[1], "-") then
          Failure(NewCliError(InvalidSizes, MissingSizesMessage))
        else
          match ParseSizes(ts[1])
          case Failure(e) => Failure(e)
          case Success(ns) => Scan(a.(sizes := Some(ns)), ts[2..])
      else if arg == "--dry-run" || arg == "-n" then Scan(a.(dryRun := true), ts[1..])
      else if arg == "--help" || arg == "-h" then Scan(a.(help := true), ts[1..])
      else if arg == "--version" || arg == "-v" then Scan(a.(version := true), ts[1..])
      else if StartsWith(arg, "-") then Failure(UnknownOption(arg))
      else
        match Place(a, arg)
        case Failure(e) => Failure(e)
        case Success(b) => Scan(b, ts[1..])
  }

  /** `parseArgs(argv)`; a thrown `CliError` is a `Failure`. */
  method ParseArgs(argv: seq<string>) returns (r: Result<IconArgs, Error>)
    ensures r == Scan(Defaults, argv)
    ensures argv == [] ==> r == Success(Defaults)
    ensures r.Success? ==> SizesOk(r.value)
  {
    var parsed := Defaults;
    var i := 0;
    while i < |argv|
      invariant 0 <= i <= |argv|
      invariant Scan(parsed, argv[i..]) == Scan(Defaults, argv)
    {
      var arg := argv[i];
      assert argv[i..][1..] == argv[i + 1..];
      if arg == "--sizes" || arg == "-s" {
        if i + 1 >= |argv| || argv[i + 1] == [] || StartsWith(argv[i + 1], "-") {
          return Failure(NewCliError(InvalidSizes, MissingSizesMessage));
        }
        var next := argv[i + 1];
        var numbers := ParseSizes(next);
        if numbers.Failure? {
          return Failure(numbers.error);
        }
        assert argv[i..][2..] == argv[i + 2..];
        parsed := parsed.(sizes := Some(numbers.value));
        i := i + 1;
      } else if arg == "--dry-run" || arg == "-n" {
        parsed := parsed.(dryRun := true);
      } else if arg == "--help" || arg == "-h" {
        parsed := parsed.(help := true);
      } else if arg == "--version" || arg == "-v" {
        parsed := parsed.(version := true);
      } else {
        if StartsWith(arg, "-") {
          return Failure(UnknownOption(arg));
        }
        if parsed.source.None? {
          parsed := parsed.(source := Some(arg));
        } else if parsed.destination.None? {
          parsed := parsed.(destination := Some(arg));
        } else if parsed.name.None? {
          parsed := parsed.(name := Some(arg));
        } else {
          return Failure(NewCliError(TooManyArgs, TooManyMessage));
        }
      }
      i := i + 1;
    }
    return Success(parsed);
  }

  // ---------------------------------------------------------------------
  // Properties of the loop.

  /** `ts[k]`, or `null` past the end. */
  function At(ts: seq<string>, k: nat): Option<string> {
    if k < |ts| then Some(ts[k]) else None
  }

  /** A token that does not start with `-` is none of the options. */
  lemma PlainIsNoOption(t: string)
    requires !StartsWith(t, "-")
    ensures !SizesFlag(t) && t != "--dry-run" && t != "-n" && t != "--help" && t != "-h"
      && t != "--version" && t != "-v"
  {
  }

  /** One step of the loop over a token that does not start with `-`. */
  lemma PlainStep(a: IconArgs, ts: seq<string>)
    requires ts != [] && !StartsWith(ts[0], "-")
    ensures Scan(a, ts) == match Place(a, ts[0])
      case Failure(e) => Failure(e)
      case Success(b) => Scan(b, ts[1..])
  {
    PlainIsNoOption(ts[0]);
  }

  /** Plain tokens once `source` and `destination` are taken. */
  lemma PlainTokensFillName(a: IconArgs, ts: seq<string>)
    requires a.source.Some? && a.destination.Some? && a.name.None?
    requires forall i | 0 <= i < |ts| :: !StartsWith(ts[i], "-")
    ensures Scan(a, ts) == if |ts| <= 1
      then Success(a.(name := At(ts, 0)))
      else Failure(NewCliError(TooManyArgs, TooManyMessage))
  {
    if ts != [] {
      PlainStep(a, ts);
      var b := a.(name := Some(ts[0]));
      var rest := ts[1..];
      if rest != [] {
        assert rest[0] == ts[1];
        PlainStep(b, rest);
      }
    }
  }

  /** Plain tokens once `source` is taken. */
  lemma PlainTokensFillDestination(a: IconArgs, ts: seq<string>)
    requires a.source.Some? && a.destination.None? && a.name.None?
    requires forall i | 0 <= i < |ts| :: !StartsWith(ts[i], "-")
    ensures Scan(a, ts) == if |ts| <= 2
      then Success(a.(destination := At(ts, 0), name := At(ts, 1)))
      else Failure(NewCliError(TooManyArgs, TooManyMessage))
  {
    if ts != [] {
      PlainStep(a, ts);
      var rest := ts[1..];
      assert forall i | 0 <= i < |rest| :: rest[i] == ts[i + 1];
      assert At(rest, 0) == At(ts, 1);
      PlainTokensFillName(a.(destination := Some(ts[0])), rest);
    }
  }

  /** Plain tokens while all three slots are empty. */
  lemma PlainTokensFillSource(a: IconArgs, ts: seq<string>)
    requires a.source.None? && a.destination.None? && a.name.None?
    requires forall i | 0 <= i < |ts| :: !StartsWith(ts[i], "-")
    ensures Scan(a, ts) == if |ts| <= 3
      then Success(a.(source := At(ts, 0), destination := At(ts, 1), name := At(ts, 2)))
      else Failure(NewCliError(TooManyArgs, TooManyMessage))
  {
    if ts != [] {
      PlainStep(a, ts);
      var rest := ts[1..];
      assert forall i | 0 <= i < |rest| :: rest[i] == ts[i + 1];
      assert At(rest, 0) == At(ts, 1);
      assert At(rest, 1) == At(ts, 2);
      PlainTokensFillDestination(a.(source := Some(ts[0])), rest);
    }
  }

  /** Tokens that do not start with `-` fill `source`, `destination` and
      `name` in that order; a fourth one is TOO_MANY_ARGS. */
  lemma PlainTokensFillSlots(ts: seq<string>)
    requires forall i | 0 <= i < |ts| :: !StartsWith(ts[i], "-")
    ensures Scan(Defaults, ts) == if |ts| <= 3
      then Success(Defaults.(source := At(ts, 0), destination := At(ts, 1), name := At(ts, 2)))
      else Failure(NewCliError(TooManyArgs, TooManyMessage))
  {
    PlainTokensFillSource(Defaults, ts);
  }

  /** A token starting with `-` that no option spells is TOO_MANY_ARGS,
      whatever follows. */
  lemma UnknownOptionFails(a: IconArgs, t: string, rest: seq<string>)
    requires StartsWith(t, "-") && !SizesFlag(t)
    requires t !in ["--dry-run", "-n", "--help", "-h", "--version", "-v"]
    ensures Scan(a, [t] + rest) == Failure(UnknownOption(t))
    ensures UnknownOption(t).code == TooManyArgs
  {
  }

  /** `--sizes` at the end, or followed by an empty token or by an option,
      is INVALID_SIZES. */
  lemma SizesNeedValue(a: IconArgs, flag: string, rest: seq<string>)
    requires SizesFlag(flag)
    requires rest == [] || rest[0] == [] || StartsWith(rest[0], "-")
    ensures Scan(a, [flag] + rest) == Failure(NewCliError(InvalidSizes, MissingSizesMessage))
  {
    assert ([flag] + rest)[0] == flag;
    assert rest != [] ==> ([flag] + rest)[1] == rest[0];
  }

  /** A list of positive sizes after `--sizes` becomes `sizes`, and its token
      is consumed with the option, so it never fills a slot. */
  lemma SizesValueConsumed(a: IconArgs, flag: string, ns: seq<int>, rest: seq<string>)
    requires SizesFlag(flag)
    requires |ns| > 0 && forall i | 0 <= i < |ns| :: ns[i] > 0
    ensures Scan(a, [flag, SizesText(ns)] + rest) == Scan(a.(sizes := Some(ns)), rest)
  {
    SizesRoundTrip(ns);
    SizesTextLeadsWithDigit(ns);
    SizesStep(a, flag, SizesText(ns), rest);
  }

  /** The written-out list starts with the first size's leading digit. */
  lemma SizesTextLeadsWithDigit(ns: seq<int>)
    requires |ns| > 0 && ns[0] >= 0
    ensures SizesText(ns) != [] && !StartsWith(SizesText(ns), "-")
  {
    var texts := Texts(ns);
    assert texts[0] == NatText(ns[0]);
    JoinWithHead(texts, ',');
    assert IsDigit(SizesText(ns)[0]);
  }

  /** `--sizes` followed by a value that is not empty and does not start
      with `-`: the value is parsed, and the loop goes on after it. */
  lemma SizesStep(a: IconArgs, flag: string, v: string, rest: seq<string>)
    requires SizesFlag(flag) && v != [] && !StartsWith(v, "-")
    ensures var p := ParseSizes(v);
      Scan(a, [flag, v] + rest) == if p.Failure? then Failure(p.error) else Scan(a.(sizes := Some(p.value)), rest)
  {
    var ts := [flag, v] + rest;
    assert ts[0] == flag && ts[1] == v && ts[2..] == rest;
  }

  /** `--sizes 10,0` is INVALID_SIZES. */
  lemma ZeroSizeRejected()
    ensures ParseSizes("10,0") == Failure(NewCliError(InvalidSizes, InvalidSizesMessage))
  {
    var ns := [10, 0];
    assert IntText(10) == "10" && IntText(0) == "0";
    assert Texts(ns) == ["10", "0"];
    assert SizesText(ns) == "10,0";
    SizePartsOfText(ns);
    NumbersOfTexts(ns);
    assert Numbers(SizeParts("10,0"))[1] == Some(0);
  }

  // ---------------------------------------------------------------------
  // The record as a function of what the command line says, independent
  // of where each token stands.

  /** The options without a value. */
  datatype Switch = DryRun | Help | Version

  /** The switch a token spells, in its long or its short form. */
  function SwitchOf(t: string): Option<Switch> {
    if t == "--dry-run" || t == "-n" then Some(DryRun)
    else if t == "--help" || t == "-h" then Some(Help)
    else if t == "--version" || t == "-v" then Some(Version)
    else None
  }

  /** `a` with the boolean of `s` set. */
  function Turn(a: IconArgs, s: Switch): IconArgs {
    match s
    case DryRun => a.(dryRun := true)
    case Help => a.(help := true)
    case Version => a.(version := true)
  }

  /** A command line read as words: a switch, `--sizes` with its list, or a
      positional argument. */
  datatype Word = SwitchWord(token: string) | SizesWord(flag: string, value: string) | PlainWord(text: string)

  /** A list `--sizes` takes as its value and `parseSizes` accepts. */
  predicate SizesValueOk(v: string) {
    v != [] && !StartsWith(v, "-") && ParseSizes(v).Success?
  }

  /** The words the parser accepts one by one. */
  predicate WordOk(w: Word) {
    match w
    case SwitchWord(t) => SwitchOf(t).Some?
    case SizesWord(f, v) => SizesFlag(f) && SizesValueOk(v)
    case PlainWord(s) => !StartsWith(s, "-")
  }

  predicate AllOk(ws: seq<Word>) {
    forall i | 0 <= i < |ws| :: WordOk(ws[i])
  }

  function TokensOf(w: Word): seq<string> {
    match w
    case SwitchWord(t) => [t]
    case SizesWord(f, v) => [f, v]
    case PlainWord(s) => [s]
  }

  /** The command line the words spell. */
  function Tokens(ws: seq<Word>): seq<string>
    decreases |ws|
  {
    if ws == [] then [] else TokensOf(ws[0]) + Tokens(ws[1..])
  }

  /** The positional arguments, in order. */
  function Plains(ws: seq<Word>): seq<string>
    decreases |ws|
  {
    if ws == [] then []
    else Plains(ws[..|ws| - 1]) + (if ws[|ws| - 1].PlainWord? then [ws[|ws| - 1].text] else [])
  }

  /** The `--sizes` values, in order. */
  function SizesValues(ws: seq<Word>): seq<string>
    decreases |ws|
  {
    if ws == [] then []
    else SizesValues(ws[..|ws| - 1]) + (if ws[|ws| - 1].SizesWord? then [ws[|ws| - 1].value] else [])
  }

  /** Some word is switch `s`, in either spelling. */
  predicate HasSwitch(ws: seq<Word>, s: Switch) {
    exists i | 0 <= i < |ws| :: ws[i].SwitchWord? && SwitchOf(ws[i].token) == Some(s)
  }

  /** The sizes the last `--sizes` value gives, `null` when there is none. */
  function LastSizes(vs: seq<string>): Option<seq<int>> {
    if vs == [] || ParseSizes(vs[|vs| - 1]).Failure? then None
    else Some(ParseSizes(vs[|vs| - 1]).value)
  }

  /** The record a command line of at most three positionals yields: the
      first three positionals as source, destination and name, the sizes of
      the last `--sizes` list, and each boolean set when its switch occurs
      anywhere. */
  function Record(ws: seq<Word>): IconArgs {
    var ps := Plains(ws);
    IconArgs(
      source := At(ps, 0), destination := At(ps, 1), name := At(ps, 2),
      sizes := LastSizes(SizesValues(ws)),
      dryRun := HasSwitch(ws, DryRun), help := HasSwitch(ws, Help), version := HasSwitch(ws, Version))
  }

  /** One word's effect on the record. */
  function Step(a: IconArgs, w: Word): Result<IconArgs, Error>
    requires WordOk(w)
  {
    match w
    case SwitchWord(t) => Success(Turn(a, SwitchOf(t).value))
    case SizesWord(_, v) => Success(a.(sizes := Some(ParseSizes(v).value)))
    case PlainWord(s) => Place(a, s)
  }

  /** The words' effect on the record, one after the other. */
  function Run(a: IconArgs, ws: seq<Word>): Result<IconArgs, Error>
    requires AllOk(ws)
    decreases |ws|
  {
    if ws == [] then Success(a)
    else
      match Step(a, ws[0])
      case Success(b) => Run(b, ws[1..])
      case Failure(e) => Failure(e)
  }

  /** The scan of `ts` after a partial result: stopped at a failure, or
      continued from the record reached. */
  function Resume(r: Result<IconArgs, Error>, ts: seq<string>): Result<IconArgs, Error> {
    match r
    case Success(a) => Scan(a, ts)
    case Failure(e) => Failure(e)
  }

  /** Reading the tokens of a word list is reading the words. */
  lemma {:induction false} ScanWords(a: IconArgs, ws: seq<Word>, rest: seq<string>)
    requires AllOk(ws)
    ensures Scan(a, Tokens(ws) + rest) == Resume(Run(a, ws), rest)
    decreases |ws|
  {
    if ws != [] {
      var w := ws[0];
      var tail := Tokens(ws[1..]) + rest;
      assert Tokens(ws) + rest == TokensOf(w) + tail;
      ScanFirstWord(a, w, tail);
      match Step(a, w)
      case Success(b) => ScanWords(b, ws[1..], rest);
      case Failure(e) =>
    } else {
      assert Tokens(ws) + rest == rest;
    }
  }

  /** The tokens of one accepted word take the loop one word further. */
  lemma ScanFirstWord(a: IconArgs, w: Word, tail: seq<string>)
    requires WordOk(w)
    ensures Scan(a, TokensOf(w) + tail) == Resume(Step(a, w), tail)
  {
    match w
    case SwitchWord(t) => SwitchStep(a, t, tail);
    case SizesWord(f, v) => SizesStep(a, f, v, tail);
    case PlainWord(p) =>
      var ts := [p] + tail;
      assert ts[0] == p && ts[1..] == tail;
      PlainStep(a, ts);
  }

  lemma SwitchStep(a: IconArgs, t: string, tail: seq<string>)
    requires SwitchOf(t).Some?
    ensures Scan(a, [t] + tail) == Scan(Turn(a, SwitchOf(t).value), tail)
  {
    var ts := [t] + tail;
    assert ts[0] == t && ts[1..] == tail;
    assert !SizesFlag(t);
  }

  lemma {:induction false} RunSnoc(a: IconArgs, ws: seq<Word>, w: Word)
    requires AllOk(ws) && WordOk(w)
    ensures AllOk(ws + [w])
    ensures Run(a, ws + [w]) == match Run(a, ws) case Success(b) => Step(b, w) case Failure(e) => Failure(e)
    decreases |ws|
  {
    if ws == [] {
      assert [w][1..] == [];
    } else {
      assert (ws + [w])[1..] == ws[1..] + [w];
      match Step(a, ws[0])
      case Success(b) => RunSnoc(b, ws[1..], w);
      case Failure(e) =>
    }
  }

  lemma HasSwitchSnoc(ws: seq<Word>, w: Word, s: Switch)
    ensures HasSwitch(ws + [w], s) <==> HasSwitch(ws, s) || (w.SwitchWord? && SwitchOf(w.token) == Some(s))
  {
    var ext := ws + [w];
    if HasSwitch(ext, s) {
      var i :| 0 <= i < |ext| && ext[i].SwitchWord? && SwitchOf(ext[i].token) == Some(s);
      if i < |ws| {
        assert ws[i] == ext[i];
      }
    }
    if HasSwitch(ws, s) {
      var i :| 0 <= i < |ws| && ws[i].SwitchWord? && SwitchOf(ws[i].token) == Some(s);
      assert ext[i] == ws[i];
    }
    if w.SwitchWord? && SwitchOf(w.token) == Some(s) {
      assert ext[|ws|] == w;
    }
  }

  /** The record of `ws` followed by one word more, the way `Step` reads it. */
  lemma RecordSnoc(ws: seq<Word>, w: Word)
    requires WordOk(w) && |Plains(ws + [w])| <= 3
    ensures Step(Record(ws), w) == Success(Record(ws + [w]))
  {
    var ext := ws + [w];
    assert ext[..|ext| - 1] == ws;
    forall s: Switch
      ensures HasSwitch(ext, s) <==> HasSwitch(ws, s) || (w.SwitchWord? && SwitchOf(w.token) == Some(s))
    {
      HasSwitchSnoc(ws, w, s);
    }
    match w
    case SwitchWord(t) => SwitchSnoc(ws, t);
    case SizesWord(f, v) => SizesSnoc(ws, f, v);
    case PlainWord(p) => PlainSnoc(ws, p);
  }

  lemma SwitchSnoc(ws: seq<Word>, t: string)
    requires SwitchOf(t).Some?
    requires forall s: Switch :: HasSwitch(ws + [SwitchWord(t)], s) <==> HasSwitch(ws, s) || SwitchOf(t) == Some(s)
    ensures Record(ws + [SwitchWord(t)]) == Turn(Record(ws), SwitchOf(t).value)
  {
    var ext := ws + [SwitchWord(t)];
    assert ext[..|ext| - 1] == ws;
    assert Plains(ext) == Plains(ws) && SizesValues(ext) == SizesValues(ws);
    var before, after := Record(ws), Record(ext);
    match SwitchOf(t).value {
      case DryRun => assert after == before.(dryRun := true);
      case Help => assert after == before.(help := true);
      case Version => assert after == before.(version := true);
    }
  }

  lemma SizesSnoc(ws: seq<Word>, f: string, v: string)
    requires SizesValueOk(v)
    requires forall s: Switch :: HasSwitch(ws + [SizesWord(f, v)], s) <==> HasSwitch(ws, s)
    ensures Record(ws + [SizesWord(f, v)]) == Record(ws).(sizes := Some(ParseSizes(v).value))
  {
    var ext := ws + [SizesWord(f, v)];
    assert ext[..|ext| - 1] == ws;
    assert Plains(ext) == Plains(ws) && SizesValues(ext) == SizesValues(ws) + [v];
  }

  lemma PlainSnoc(ws: seq<Word>, p: string)
    requires |Plains(ws + [PlainWord(p)])| <= 3
    requires forall s: Switch :: HasSwitch(ws + [PlainWord(p)], s) <==> HasSwitch(ws, s)
    ensures Place(Record(ws), p) == Success(Record(ws + [PlainWord(p)]))
  {
    var ext := ws + [PlainWord(p)];
    assert ext[..|ext| - 1] == ws;
    assert Plains(ext) == Plains(ws) + [p] && SizesValues(ext) == SizesValues(ws);
    PlaceNext(Record(ws), Plains(ws), p);
  }

  lemma PlaceNext(a: IconArgs, ps: seq<string>, p: string)
    requires |ps| < 3 && a.source == At(ps, 0) && a.destination == At(ps, 1) && a.name == At(ps, 2)
    ensures Place(a, p) == Success(a.(source := At(ps + [p], 0), destination := At(ps + [p], 1), name := At(ps + [p], 2)))
  {
  }

  /** With more than three positionals the word list fails as the fourth
      one is read. */
  lemma {:induction false} RunIsRecord(ws: seq<Word>)
    requires AllOk(ws)
    ensures Run(Defaults, ws) == if |Plains(ws)| <= 3 then Success(Record(ws))
      else Failure(NewCliError(TooManyArgs, TooManyMessage))
    decreases |ws|
  {
    if ws == [] {
      assert forall s: Switch :: !HasSwitch(ws, s);
    } else {
      var init, w := ws[..|ws| - 1], ws[|ws| - 1];
      assert ws == init + [w];
      assert AllOk(init) by {
        assert forall i | 0 <= i < |init| :: init[i] == ws[i];
      }
      RunIsRecord(init);
      RunSnoc(Defaults, init, w);
      if |Plains(init)| <= 3 {
        if |Plains(ws)| <= 3 {
          RecordSnoc(init, w);
        } else {
          assert |Plains(init)| == 3 && w.PlainWord?;
          assert Record(init).source.Some? && Record(init).destination.Some? && Record(init).name.Some?;
        }
      }
    }
  }

  /** The closed form: a command line made of accepted words fills source,
      destination and name from its first three positionals, takes the
      sizes of its last `--sizes` list, sets each switch exactly when it
      occurs; a fourth positional is TOO_MANY_ARGS. */
  lemma ParseOfWords(ws: seq<Word>)
    requires AllOk(ws)
    ensures Scan(Defaults, Tokens(ws)) == if |Plains(ws)| <= 3 then Success(Record(ws))
      else Failure(NewCliError(TooManyArgs, TooManyMessage))
  {
    ScanWords(Defaults, ws, []);
    assert Tokens(ws) + [] == Tokens(ws);
    RunIsRecord(ws);
  }

  /** `src/logo.png dist/icons app --sizes 72,96,128 -n`: the three slots in
      order, the sizes 72, 96 and 128, dry run on, help and version off. */
  lemma ExampleCommandLine(argv: seq<string>)
    requires argv == ["src/logo.png", "dist/icons", "app", "--sizes", "72,96,128", "-n"]
    ensures Scan(Defaults, argv)
      == Success(IconArgs(Some("src/logo.png"), Some("dist/icons"), Some("app"), Some([72, 96, 128]), true, false, false))
  {
    NoDash("src/logo.png", 's');
    NoDash("dist/icons", 'd');
    NoDash("app", 'a');
    NoDash("72,96,128", '7');
    ExampleSizes();
    ThreeSlotsSizesDryRun("src/logo.png", "dist/icons", "app", "--sizes", "72,96,128", "-n");
  }

  lemma NoDash(s: string, c: char)
    requires s != [] && s[0] == c && c != '-'
    ensures !StartsWith(s, "-")
  {
  }

  lemma ExampleSizes()
    ensures ParseSizes("72,96,128") == Success([72, 96, 128])
  {
    assert IntText(72) == "72" && IntText(96) == "96" && IntText(128) == "128";
    assert Texts([72, 96, 128]) == ["72", "96", "128"];
    assert SizesText([72, 96, 128]) == "72,96,128";
    SizesRoundTrip([72, 96, 128]);
  }

  /** Three positionals, a `--sizes` list and `--dry-run`, in that order. */
  lemma ThreeSlotsSizesDryRun(p1: string, p2: string, p3: string, f: string, v: string, t: string)
    requires !StartsWith(p1, "-") && !StartsWith(p2, "-") && !StartsWith(p3, "-")
    requires SizesFlag(f) && SizesValueOk(v) && SwitchOf(t) == Some(DryRun)
    ensures Scan(Defaults, [p1, p2, p3, f, v, t])
      == Success(IconArgs(Some(p1), Some(p2), Some(p3), Some(ParseSizes(v).value), true, false, false))
  {
    var ws := ExampleWords(p1, p2, p3, f, v, t);
    assert AllOk(ws) by {
      assert forall i | 0 <= i < 5 :: WordOk(ws[i]);
    }
    ExampleTokens(p1, p2, p3, f, v, t);
    ExamplePlains(p1, p2, p3, f, v, t);
    ExampleSwitches(p1, p2, p3, f, v, t);
    ParseOfWords(ws);
  }

  function ExampleWords(p1: string, p2: string, p3: string, f: string, v: string, t: string): seq<Word> {
    [PlainWord(p1), PlainWord(p2), PlainWord(p3), SizesWord(f, v), SwitchWord(t)]
  }

  lemma ExampleTokens(p1: string, p2: string, p3: string, f: string, v: string, t: string)
    ensures Tokens(ExampleWords(p1, p2, p3, f, v, t)) == [p1, p2, p3, f, v, t]
  {
    var ws := ExampleWords(p1, p2, p3, f, v, t);
    assert Tokens(ws[4..]) == [t];
    assert Tokens(ws[3..]) == [f, v, t];
    assert Tokens(ws[2..]) == [p3, f, v, t];
    assert Tokens(ws[1..]) == [p2, p3, f, v, t];
  }

  lemma ExamplePlains(p1: string, p2: string, p3: string, f: string, v: string, t: string)
    ensures var ws := ExampleWords(p1, p2, p3, f, v, t);
      Plains(ws) == [p1, p2, p3] && SizesValues(ws) == [v]
  {
    var ws := ExampleWords(p1, p2, p3, f, v, t);
    var w1, w2, w3, w4 := ws[..1], ws[..2], ws[..3], ws[..4];
    assert w2[..1] == w1 && w3[..2] == w2 && w4[..3] == w3 && ws[..4] == w4;
    assert Plains(w1) == [p1] && SizesValues(w1) == [];
    assert Plains(w2) == [p1, p2] && SizesValues(w2) == [];
    assert Plains(w3) == [p1, p2, p3] && SizesValues(w3) == [];
    assert Plains(w4) == [p1, p2, p3] && SizesValues(w4) == [v];
  }

  lemma ExampleSwitches(p1: string, p2: string, p3: string, f: string, v: string, t: string)
    requires SwitchOf(t) == Some(DryRun)
    ensures var ws := ExampleWords(p1, p2, p3, f, v, t);
      HasSwitch(ws, DryRun) && !HasSwitch(ws, Help) && !HasSwitch(ws, Version)
  {
    var ws := ExampleWords(p1, p2, p3, f, v, t);
    assert ws[4].SwitchWord? && ws[4].token == t;
  }
}
