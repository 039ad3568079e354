/** `generateIcons` of the `our-icon-gen` tool, planning only: the source
    check, the destination directory, the sorted set of sizes, one output
    file per size, and the plan printed in dry-run mode. */
module IconCore {
  import opened Wrappers
  import opened Text
  import opened CliErrors
  import opened IconErrors
  import opened FileSystem
  import opened Seqs

  /** `DEFAULT_ICON_SIZES`. */
  const DefaultIconSizes: seq<int> := [72, 96, 128, 144, 152, 192, 384, 512]

  /** The `sizes` parameter: left out (the default applies), `null`, or a list. */
  datatype SizesParam = Omitted | Null | Given(list: seq<int>)

  /** The list the function works on: the destructuring default replaces
      only a missing value, and `new Set(null)` is empty. */
  function Requested(p: SizesParam): (s: seq<int>)
    ensures p.Omitted? ==> s == DefaultIconSizes
    ensures p.Null? ==> s == []
    ensures p.Given? ==> s == p.list
  {
    match p
    case Omitted => DefaultIconSizes
    case Null => []
    case Given(list) => list
  }

  predicate Ascending(u: seq<int>) {
    forall i, j | 0 <= i < j < |u| :: u[i] < u[j]
  }

  /** `u` with `x` put in its place, once. */
  function Insert(u: seq<int>, x: int): (r: seq<int>)
    requires Ascending(u)
    ensures Ascending(r)
    ensures forall y :: y in r <==> y in u || y == x
    decreases |u|
  {
    if u == [] then [x]
    else if x < u[0] then [x] + u
    else if x == u[0] then u
    else
      var rest := Insert(u[1..], x);
      forall k | 0 <= k < |rest|
        ensures u[0] < rest[k]
      {
        assert rest[k] in rest;
        assert rest[k] in u[1..] || rest[k] == x;
      }
      [u[0]] + rest
  }

  /** `Array.from(new Set(sizes)).sort((a, b) => a - b)`: the distinct sizes,
      smallest first. */
  function UniqueSizes(sizes: seq<int>): (u: seq<int>)
    ensures Ascending(u)
    ensures forall y :: y in u <==> y in sizes
    ensures |u| <= |sizes|
    decreases |sizes|
  {
    if sizes == [] then []
    else
      var init := sizes[..|sizes| - 1];
      assert sizes == init + [sizes[|sizes| - 1]];
      var u := Insert(UniqueSizes(init), sizes[|sizes| - 1]);
      assert |u| <= |init| + 1 by { InsertLength(UniqueSizes(init), sizes[|sizes| - 1]); }
      u
  }

  lemma {:induction false} InsertLength(u: seq<int>, x: int)
    requires Ascending(u)
    ensures |Insert(u, x)| <= |u| + 1
    decreases |u|
  {
    if u != [] && x > u[0] {
      InsertLength(u[1..], x);
    }
  }

  /** An ascending list is determined by its elements. */
  lemma {:induction false} AscendingIsCanonical(a: seq<int>, b: seq<int>)
    requires Ascending(a) && Ascending(b)
    requires forall y :: y in a <==> y in b
    ensures a == b
    decreases |a| + |b|
  {
    assert a != [] ==> a[0] in a;
    assert b != [] ==> b[0] in b;
    if a != [] && b != [] {
      assert a[0] == b[0] by {
        var j :| 0 <= j < |b| && b[j] == a[0];
        assert b[0] <= a[0];
        var k :| 0 <= k < |a| && a[k] == b[0];
        assert a[0] <= b[0];
      }
      forall y
        ensures y in a[1..] <==> y in b[1..]
      {
        if y in a[1..] {
          var i :| 1 <= i < |a| && a[i] == y;
          assert a[0] < y;
        }
        if y in b[1..] {
          var i :| 1 <= i < |b| && b[i] == y;
          assert b[0] < y;
        }
        assert y in a ==> y == a[0] || y in a[1..];
        assert y in b ==> y == b[0] || y in b[1..];
      }
      AscendingIsCanonical(a[1..], b[1..]);
      assert a == [a[0]] + a[1..] && b == [b[0]] + b[1..];
    }
  }

  /** The planned sizes depend only on which sizes were asked for: order and
      repetitions do not matter, and an ascending list without repetitions
      (the default one, say) is kept as it is. */
  lemma UniqueSizesCanonical(s: seq<int>, t: seq<int>)
    ensures (forall y :: y in s <==> y in t) ==> UniqueSizes(s) == UniqueSizes(t)
    ensures Ascending(s) ==> UniqueSizes(s) == s
    ensures UniqueSizes(UniqueSizes(s)) == UniqueSizes(s)
  {
    if forall y :: y in s <==> y in t {
      AscendingIsCanonical(UniqueSizes(s), UniqueSizes(t));
    }
    if Ascending(s) {
      AscendingIsCanonical(UniqueSizes(s), s);
    }
    AscendingIsCanonical(UniqueSizes(UniqueSizes(s)), UniqueSizes(s));
  }

  lemma DefaultSizesPlanned()
    ensures UniqueSizes(Requested(Omitted)) == DefaultIconSizes
  {
    UniqueSizesCanonical(DefaultIconSizes, DefaultIconSizes);
  }

  /** `${baseName}-${size}x${size}.png`. */
  function IconFileName(baseName: string, size: int): (r: string)
    ensures StartsWith(r, baseName + "-") && |r| > 4 && r[|r| - 4..] == ".png"
  {
    baseName + "-" + IntText(size) + "x" + IntText(size) + ".png"
  }

  /** The size can be read back from the file name: different sizes never
      share a file. */
  lemma FileNameNamesSize(baseName: string, size: int)
    ensures ParseInt(IconFileName(baseName, size)[|baseName| + 1..]) == Some(size)
  {
    var rest := "x" + IntText(size) + ".png";
    assert IconFileName(baseName, size)[|baseName| + 1..] == IntText(size) + rest;
    ParseIntOfText(size, rest);
  }

  lemma FileNamesDistinct(baseName: string, s: int, t: int)
    requires s != t
    ensures IconFileName(baseName, s) != IconFileName(baseName, t)
  {
    FileNameNamesSize(baseName, s);
    FileNameNamesSize(baseName, t);
  }

  /** `join(absDest, filename)`. */
  function OutputPath(absDest: Path, baseName: string, size: int): (r: Path)
    ensures StartsWith(r, WithSep(absDest))
  {
    Join(absDest, IconFileName(baseName, size))
  }

  /** Every output lies under `absDest`, and its name starts with the
      base name and a dash and ends with `.png`. */
  lemma OutputPathShape(absDest: Path, baseName: string, size: int)
    ensures InTree(absDest, OutputPath(absDest, baseName, size))
    ensures var f := IconFileName(baseName, size);
      StartsWith(f, baseName + "-") && |f| > 4 && f[|f| - 4..] == ".png"
  {
    var f := IconFileName(baseName, size);
    assert f[..|baseName| + 1] == baseName + "-";
  }

  lemma OutputPathsDistinct(absDest: Path, baseName: string, s: int, t: int)
    requires s != t
    ensures OutputPath(absDest, baseName, s) != OutputPath(absDest, baseName, t)
  {
    FileNamesDistinct(baseName, s, t);
    var d := WithSep(absDest);
    assert OutputPath(absDest, baseName, s)[|d|..] == IconFileName(baseName, s);
    assert OutputPath(absDest, baseName, t)[|d|..] == IconFileName(baseName, t);
  }

  /** The dry-run lines for the sizes `u`, one per size, in order. */
  function PlanLines(absDest: Path, baseName: string, u: seq<int>): seq<Line> {
    seq(|u|, i requires 0 <= i < |u| => Info("Would generate: " + OutputPath(absDest, baseName, u[i])))
  }

  lemma PlanLinesSnoc(absDest: Path, baseName: string, u: seq<int>, x: int)
    ensures PlanLines(absDest, baseName, u + [x]) == PlanLines(absDest, baseName, u) + [Info("Would generate: " + OutputPath(absDest, baseName, x))]
  {
  }

  /** The resize-and-write calls for the sizes `u`, one per size, in order. */
  function Renders(absSource: Path, absDest: Path, baseName: string, u: seq<int>): seq<Call> {
    seq(|u|, i requires 0 <= i < |u| => RenderCall(absSource, u[i], OutputPath(absDest, baseName, u[i])))
  }

  lemma RendersSnoc(absSource: Path, absDest: Path, baseName: string, u: seq<int>, x: int)
    ensures Renders(absSource, absDest, baseName, u + [x]) == Renders(absSource, absDest, baseName, u) + [RenderCall(absSource, x, OutputPath(absDest, baseName, x))]
  {
  }

  function SourceMissing(absSource: Path): Error {
    NewCliError(SourceNotFound, "Source image not found: " + absSource)
  }

  /** The destination step of `generateIcons`: the tree after it (or the
      failure of `mkdir`), its calls and its lines. */
  datatype DirStep = DirStep(made: Result<Fs, Errno>, calls: seq<Call>, lines: seq<Line>)

  /** A missing destination is created with `mkdir(absDest, { recursive: true })`,
      or announced in dry-run mode; an existing one is left alone. */
  function EnsureDestination(fs: Fs, absDest: Path, dryRun: bool): (d: DirStep)
    ensures absDest in fs ==> d == DirStep(Success(fs), [], [])
    ensures dryRun ==> d.made == Success(fs) && d.calls == []
    ensures !dryRun ==> d.lines == []
    ensures absDest !in fs && dryRun ==> d.lines == [Info("Would create directory: " + absDest)]
    ensures absDest !in fs && !dryRun ==> d.calls == [MkdirCall(absDest, true)] && d.made == MkdirResult(fs, absDest, true)
  {
    if absDest in fs then DirStep(Success(fs), [], [])
    else if dryRun then DirStep(Success(fs), [], [Info("Would create directory: " + absDest)])
    else DirStep(MkdirResult(fs, absDest, true), [MkdirCall(absDest, true)], [])
  }

  /** The outcome of a call, the tree after it, its calls and its lines. */
  datatype IconRun = IconRun(outcome: Outcome<Thrown<ErrorCode>>, fs: Fs, calls: seq<Call>, lines: seq<Line>)

  /** `generateIcons({ absSource, absDest, baseName, sizes, dryRun })`:
      `stat` and `existsSync` are membership in `fs`, and the image work
      of each size is one `RenderCall`. */
  function Generate(fs: Fs, absSource: Path, absDest: Path, baseName: string, sizes: SizesParam, dryRun: bool): (run: IconRun)
    ensures absSource !in fs ==> run == IconRun(Fail(Raised(SourceMissing(absSource))), fs, [], [])
    ensures dryRun ==> run.fs == fs && run.calls == []
    ensures !dryRun ==> run.lines == []
    ensures run.outcome.Fail? && absSource in fs ==> !dryRun && absDest !in fs && run.outcome.error.Native?
  {
    if absSource !in fs then IconRun(Fail(Raised(SourceMissing(absSource))), fs, [], [])
    else Proceed(fs, absSource, absDest, baseName, sizes, dryRun)
  }

  /** `generateIcons` once the source is known to exist. */
  function Proceed(fs: Fs, absSource: Path, absDest: Path, baseName: string, sizes: SizesParam, dryRun: bool): (run: IconRun)
    ensures dryRun ==> run.fs == fs && run.calls == []
    ensures !dryRun ==> run.lines == []
    ensures run.outcome.Fail? ==> !dryRun && absDest !in fs && run.outcome.error.Native?
  {
    var d := EnsureDestination(fs, absDest, dryRun);
    if d.made.Failure? then IconRun(Fail(Native(d.made.error)), fs, d.calls, d.lines)
    else
      var u := UniqueSizes(Requested(sizes));
      if dryRun then IconRun(Pass, fs, [], d.lines + PlanLines(absDest, baseName, u))
      else IconRun(Pass, d.made.value, d.calls + Renders(absSource, absDest, baseName, u), [])
  }

  /** The destination check of `generateIcons`. */
  method EnsureDir(h: Host, absDest: Path, dryRun: bool) returns (r: Outcome<Errno>)
    modifies h
    ensures var d := EnsureDestination(old(h.fs), absDest, dryRun);
      r == Report(d.made) && h.fs == After(old(h.fs), d.made)
      && h.calls == old(h.calls) + d.calls && h.log == old(h.log) + d.lines
  {
    r := Pass;
    if !h.Exists(absDest) {
      if dryRun {
        h.Say(Info("Would create directory: " + absDest));
      } else {
        r := h.Mkdir(absDest, true);
      }
    }
  }

  /** The body of the `for` loop of `generateIcons` for one size. */
  method EmitOne(h: Host, absSource: Path, absDest: Path, baseName: string, size: int, dryRun: bool)
    modifies h
    ensures h.fs == old(h.fs)
    ensures dryRun ==> h.calls == old(h.calls) && h.log == old(h.log) + [Info("Would generate: " + OutputPath(absDest, baseName, size))]
    ensures !dryRun ==> h.log == old(h.log) && h.calls == old(h.calls) + [RenderCall(absSource, size, OutputPath(absDest, baseName, size))]
  {
    var outputPath := OutputPath(absDest, baseName, size);
    if dryRun {
      h.Say(Info("Would generate: " + outputPath));
    } else {
      h.Render(absSource, size, outputPath);
    }
  }

  /** The `for` loop of `generateIcons` over the sizes `unique`: a
      "Would generate" line per size in dry-run mode, a render call per
      size otherwise. */
  method EmitAll(h: Host, absSource: Path, absDest: Path, baseName: string, unique: seq<int>, dryRun: bool)
    modifies h
    ensures h.fs == old(h.fs)
    ensures dryRun ==> h.calls == old(h.calls) && h.log == old(h.log) + PlanLines(absDest, baseName, unique)
    ensures !dryRun ==> h.log == old(h.log) && h.calls == old(h.calls) + Renders(absSource, absDest, baseName, unique)
  {
    var i := 0;
    while i < |unique|
      invariant 0 <= i <= |unique|
      invariant h.fs == old(h.fs)
      invariant dryRun ==> h.calls == old(h.calls) && h.log == old(h.log) + PlanLines(absDest, baseName, unique[..i])
      invariant !dryRun ==> h.log == old(h.log) && h.calls == old(h.calls) + Renders(absSource, absDest, baseName, unique[..i])
    {
      var size := unique[i];
      assert unique[..i + 1] == unique[..i] + [size];
      PlanLinesSnoc(absDest, baseName, unique[..i], size);
      RendersSnoc(absSource, absDest, baseName, unique[..i], size);
      EmitOne(h, absSource, absDest, baseName, size, dryRun);
      i := i + 1;
    }
    assert unique[..i] == unique;
  }

  /** `generateIcons` against the host `h`. */
  method GenerateIcons(h: Host, absSource: Path, absDest: Path, baseName: string, sizes: SizesParam := Omitted, dryRun: bool := false)
    returns (r: Outcome<Thrown<ErrorCode>>)
    modifies h
    ensures var run := Generate(old(h.fs), absSource, absDest, baseName, sizes, dryRun);
      r == run.outcome && h.fs == run.fs
      && h.calls == old(h.calls) + run.calls && h.log == old(h.log) + run.lines
  {
    if !h.Exists(absSource) {
      return Fail(Raised(SourceMissing(absSource)));
    }
    r := GenerateFound(h, absSource, absDest, baseName, sizes, dryRun);
  }

  /** The part of `generateIcons` after the source check. */
  method GenerateFound(h: Host, absSource: Path, absDest: Path, baseName: string, sizes: SizesParam, dryRun: bool)
    returns (r: Outcome<Thrown<ErrorCode>>)
    modifies h
    ensures var run := Proceed(old(h.fs), absSource, absDest, baseName, sizes, dryRun);
      r == run.outcome && h.fs == run.fs
      && h.calls == old(h.calls) + run.calls && h.log == old(h.log) + run.lines
  {
    ghost var d := EnsureDestination(h.fs, absDest, dryRun);
    var made := EnsureDir(h, absDest, dryRun);
    if made.Fail? {
      return Fail(Native(made.error));
    }
    var unique := UniqueSizes(Requested(sizes));
    EmitAll(h, absSource, absDest, baseName, unique, dryRun);
    AppendAssoc(old(h.log), d.lines, PlanLines(absDest, baseName, unique));
    AppendAssoc(old(h.calls), d.calls, Renders(absSource, absDest, baseName, unique));
    return Pass;
  }

  // ---------------------------------------------------------------------
  // What a call promises.

  /** The outputs of a list of distinct sizes are distinct, lie under
      `absDest`, and come in the order of the sizes. */
  lemma RendersDistinct(absSource: Path, absDest: Path, baseName: string, u: seq<int>)
    requires Ascending(u)
    ensures var rs := Renders(absSource, absDest, baseName, u);
      |rs| == |u|
      && (forall i | 0 <= i < |rs| :: rs[i].RenderCall? && rs[i].source == absSource && rs[i].size == u[i] && InTree(absDest, rs[i].output))
      && (forall i, j | 0 <= i < j < |rs| :: rs[i].size < rs[j].size && rs[i].output != rs[j].output)
  {
    var rs := Renders(absSource, absDest, baseName, u);
    forall i | 0 <= i < |rs|
      ensures InTree(absDest, rs[i].output)
    {
      OutputPathShape(absDest, baseName, u[i]);
    }
    forall i, j | 0 <= i < j < |rs|
      ensures rs[i].output != rs[j].output
    {
      OutputPathsDistinct(absDest, baseName, u[i], u[j]);
    }
  }

  /** A real run with an existing source and a destination that exists or
      can be created renders each requested size exactly once, smallest
      first, each to its own file under `absDest`; `mkdir` is called only
      when the destination was missing. */
  lemma OnePerUniqueSize(fs: Fs, absSource: Path, absDest: Path, baseName: string, sizes: SizesParam)
    requires absSource in fs
    requires absDest in fs || MkdirResult(fs, absDest, true).Success?
    ensures var run := Generate(fs, absSource, absDest, baseName, sizes, false);
      var k := if absDest in fs then 0 else 1;
      var rs := run.calls[k..];
      run.outcome == Pass && absDest in run.fs && |run.calls| >= k
      && (k == 1 ==> run.calls[0] == MkdirCall(absDest, true))
      && (forall y :: y in Requested(sizes) <==> exists i | 0 <= i < |rs| :: rs[i].size == y)
      && (forall i | 0 <= i < |rs| :: rs[i].RenderCall? && InTree(absDest, rs[i].output)
           && rs[i].output == OutputPath(absDest, baseName, rs[i].size))
      && (forall i, j | 0 <= i < j < |rs| :: rs[i].size < rs[j].size && rs[i].output != rs[j].output)
  {
    var u := UniqueSizes(Requested(sizes));
    var run := Generate(fs, absSource, absDest, baseName, sizes, false);
    var k := if absDest in fs then 0 else 1;
    var rs := Renders(absSource, absDest, baseName, u);
    assert run.calls[k..] == rs;
    RendersDistinct(absSource, absDest, baseName, u);
    RendersCover(absSource, absDest, baseName, sizes);
  }

  lemma RendersCover(absSource: Path, absDest: Path, baseName: string, sizes: SizesParam)
    ensures var rs := Renders(absSource, absDest, baseName, UniqueSizes(Requested(sizes)));
      forall y :: y in Requested(sizes) <==> exists i | 0 <= i < |rs| :: rs[i].size == y
  {
    var u := UniqueSizes(Requested(sizes));
    var rs := Renders(absSource, absDest, baseName, u);
    forall y
      ensures y in Requested(sizes) <==> exists i | 0 <= i < |rs| :: rs[i].size == y
    {
      if y in Requested(sizes) {
        var i :| 0 <= i < |u| && u[i] == y;
        assert rs[i].size == y;
      }
    }
  }

  /** With no sizes given the eight default sizes are rendered, in their
      order. */
  lemma DefaultsRendered(fs: Fs, absSource: Path, absDest: Path, baseName: string)
    requires absSource in fs && absDest in fs
    ensures var run := Generate(fs, absSource, absDest, baseName, Omitted, false);
      |run.calls| == 8 && forall i | 0 <= i < 8 :: run.calls[i] == RenderCall(absSource, DefaultIconSizes[i], OutputPath(absDest, baseName, DefaultIconSizes[i]))
  {
    DefaultSizesPlanned();
  }

  /** A dry run changes nothing and makes no call: it prints "Would create
      directory" first when the destination is missing, then the plan: one
      "Would generate" line per distinct size, smallest first. */
  lemma DryRunOnlyPlans(fs: Fs, absSource: Path, absDest: Path, baseName: string, sizes: SizesParam)
    requires absSource in fs
    ensures var run := Generate(fs, absSource, absDest, baseName, sizes, true);
      run.outcome == Pass && run.fs == fs && run.calls == []
      && run.lines == (if absDest in fs then [] else [Info("Would create directory: " + absDest)])
        + PlanLines(absDest, baseName, UniqueSizes(Requested(sizes)))
  {
    var d := EnsureDestination(fs, absDest, true);
    assert d.made == Success(fs);
    assert d.lines == if absDest in fs then [] else [Info("Would create directory: " + absDest)];
  }
}
