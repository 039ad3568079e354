/** `copyPath` of the `ourcopy` tool: validate the two absolute paths, check
    that the source exists, make sure the destination's parent directory
    exists, optionally remove the destination, and copy recursively; or, on
    a dry run, print the plan and touch nothing. */
module CopyEngine {
  import opened Wrappers
  import opened Text
  import opened CliErrors
  import opened CopyErrors
  import opened FileSystem
  import opened Seqs

  /** `isSubPath(parent, child)`: equal paths, or `child` followed by a
      separator starts with `parent` followed by a separator. */
  function IsSubPath(parent: Path, child: Path): (r: bool)
    ensures parent == child ==> r
    ensures r ==> |WithSep(parent)| <= |WithSep(child)|
  {
    parent == child || StartsWith(WithSep(child), WithSep(parent))
  }

  /** For resolved paths, `isSubPath` is exactly "lies in the tree of". */
  lemma SubPathIsInTree(parent: Path, child: Path)
    requires ValidPath(parent) && ValidPath(child)
    ensures IsSubPath(parent, child) <==> InTree(parent, child)
  {
    if InTree(parent, child) && parent != child {
      StartsWithTransitive(WithSep(child), WithSep(parent), child);
    }
    if IsSubPath(parent, child) && parent != child {
      BelowWithSep(parent, child);
    }
  }

  /** The root directory contains every absolute path. */
  lemma RootContainsAll(p: Path)
    requires ValidPath(p)
    ensures IsSubPath("/", p)
  {
    assert WithSep(p)[..1] == "/";
  }

  /** The separator guard keeps sibling names with a common prefix apart. */
  lemma SubPathExamples()
    ensures IsSubPath("/tmp/src", "/tmp/src/inner")
    ensures !IsSubPath("/tmp/src", "/tmp/src2")
    ensures !IsSubPath("/tmp/src/inner", "/tmp/src")
    ensures IsSubPath("/", "/tmp")
  {
    assert WithSep("/tmp/src/inner")[..|WithSep("/tmp/src")|] == WithSep("/tmp/src");
    assert WithSep("/tmp/src2")[..|WithSep("/tmp/src")|] != WithSep("/tmp/src");
    assert WithSep("/tmp")[..1] == "/";
  }

  /** What one call of `copyPath` does: how it ends, the filesystem after it,
      the filesystem calls it makes and the lines it prints. */
  datatype CopyRun = CopyRun(outcome: Outcome<Thrown<ErrorCode>>, fs: Fs, calls: seq<Call>, lines: seq<Line>)

  /** The lines a dry run prints. */
  function DryRunPlan(src: Path, dst: Path, force: bool, preserveSymlinks: bool): (lines: seq<Line>)
    ensures |lines| == if force then 3 else 2
    ensures lines[0] == Info("Would ensure parent directory exists: " + Dirname(dst))
    ensures force ==> lines[1] == Info("Would remove destination (if exists): " + dst)
    ensures lines[|lines| - 1] == Info("Would copy from " + src + " to " + dst
      + " (options: dereference=" + BoolText(!preserveSymlinks)
      + ", recursive=true, force=" + BoolText(force) + ")")
  {
    var copyLine := "Would copy from " + src + " to " + dst
      + " (options: dereference=" + BoolText(!preserveSymlinks)
      + ", recursive=true, force=" + BoolText(force) + ")";
    [Info("Would ensure parent directory exists: " + Dirname(dst))]
      + (if force then [Info("Would remove destination (if exists): " + dst)] else [])
      + [Info(copyLine)]
  }

  const SamePathMessage := "Source and destination cannot be the same path."
  const InsideSourceMessage := "Destination cannot be inside the source path (would cause recursion)."

  function Refuse(fs: Fs, code: ErrorCode, message: string): CopyRun {
    CopyRun(Fail(Raised(NewCliError(code, message))), fs, [], [])
  }

  /** The part of `copyPath` that runs once the checks pass and it is not a
      dry run: ensure the destination's parent exists, remove the
      destination under `--force`, then copy. A failing call ends it with
      the call's own error. */
  function Transfer(fs: Fs, faults: map<Path, Errno>, src: Path, dst: Path,
                    force: bool, preserveSymlinks: bool): (run: CopyRun)
    ensures run.lines == []
    ensures |run.calls| > 0 && run.calls[0] == MkdirCall(Dirname(dst), true)
    ensures run.outcome.Fail? ==> run.outcome.error.Native?
    ensures run.outcome.Pass? ==>
      run.calls == [MkdirCall(Dirname(dst), true)]
        + (if force then [RmCall(dst, true, true)] else [])
        + [CpCall(src, dst, true, !preserveSymlinks, force)]
  {
    var parent := Dirname(dst);
    var made := MkdirResult(fs, parent, true);
    var calls1 := [MkdirCall(parent, true)];
    if made.Failure? then CopyRun(Fail(Native(made.error)), fs, calls1, [])
    else
      var fs1 := made.value;
      var removed := if force then RmResult(fs1, faults, dst, true, true) else Success(fs1);
      var calls2 := calls1 + (if force then [RmCall(dst, true, true)] else []);
      if removed.Failure? then CopyRun(Fail(Native(removed.error)), fs1, calls2, [])
      else
        var fs2 := removed.value;
        var copied := CpResult(fs2, src, dst, true, !preserveSymlinks, force);
        CopyRun(if copied.Success? then Pass else Fail(Native(copied.error)),
                After(fs2, copied), calls2 + [CpCall(src, dst, true, !preserveSymlinks, force)], [])
  }

  /** The behaviour of `copyPath`. `faults` is the oracle for `rm` failures.
      The checks come in the source's order: equal paths, then destination
      inside source (reported even when the source is missing), then a
      missing source; a failed check and a dry run change nothing. */
  function Copy(fs: Fs, faults: map<Path, Errno>, src: Path, dst: Path,
                force: bool, preserveSymlinks: bool, dryRun: bool): (run: CopyRun)
    ensures run.outcome.Fail? && run.outcome.error.Raised? ==> run.fs == fs && run.calls == [] && run.lines == []
    ensures dryRun ==> run.fs == fs && run.calls == []
    ensures !dryRun ==> run.lines == []
    ensures src == dst ==> run.outcome == Fail(Raised(NewCliError(SameSourceDest, SamePathMessage)))
    ensures src != dst && IsSubPath(src, dst) ==>
      run.outcome == Fail(Raised(NewCliError(DestInsideSource, InsideSourceMessage)))
    ensures !IsSubPath(src, dst) && src !in fs ==>
      run.outcome == Fail(Raised(NewCliError(SourceNotFound, "Source not found: " + src)))
    ensures !IsSubPath(src, dst) && src in fs && dryRun ==>
      run.outcome == Pass && run.lines == DryRunPlan(src, dst, force, preserveSymlinks)
    ensures !IsSubPath(src, dst) && src in fs && !dryRun ==>
      run == Transfer(fs, faults, src, dst, force, preserveSymlinks)
  {
    if src == dst then
      Refuse(fs, SameSourceDest, SamePathMessage)
    else if IsSubPath(src, dst) then
      Refuse(fs, DestInsideSource, InsideSourceMessage)
    else if src !in fs then
      Refuse(fs, SourceNotFound, "Source not found: " + src)
    else if dryRun then
      CopyRun(Pass, fs, [], DryRunPlan(src, dst, force, preserveSymlinks))
    else
      Transfer(fs, faults, src, dst, force, preserveSymlinks)
  }

  /** `copyPath` against the host. */
  method CopyPath(h: Host, absSource: Path, absDest: Path, force: bool, preserveSymlinks: bool,
                  dryRun: bool := false)
    returns (r: Outcome<Thrown<ErrorCode>>)
    modifies h
    ensures var run := Copy(old(h.fs), h.faults, absSource, absDest, force, preserveSymlinks, dryRun);
      && r == run.outcome && h.fs == run.fs
      && h.calls == old(h.calls) + run.calls && h.log == old(h.log) + run.lines
  {
    if absSource == absDest {
      return Fail(Raised(NewCliError(SameSourceDest, SamePathMessage)));
    }
    if IsSubPath(absSource, absDest) {
      return Fail(Raised(NewCliError(DestInsideSource, InsideSourceMessage)));
    }
    if !h.Exists(absSource) {
      return Fail(Raised(NewCliError(SourceNotFound, "Source not found: " + absSource)));
    }
    if dryRun {
      SayPlan(h, absSource, absDest, force, preserveSymlinks);
      return Pass;
    }
    r := RunTransfer(h, absSource, absDest, force, preserveSymlinks);
  }

  /** The lines of a dry run, printed to the host's log. */
  method SayPlan(h: Host, absSource: Path, absDest: Path, force: bool, preserveSymlinks: bool)
    modifies h
    ensures h.log == old(h.log) + DryRunPlan(absSource, absDest, force, preserveSymlinks)
    ensures h.fs == old(h.fs) && h.calls == old(h.calls)
  {
    ghost var log0 := h.log;
    ghost var plan := DryRunPlan(absSource, absDest, force, preserveSymlinks);
    h.Say(Info("Would ensure parent directory exists: " + Dirname(absDest)));
    ghost var said := [plan[0]];
    if force {
      h.Say(Info("Would remove destination (if exists): " + absDest));
      AppendAssoc(log0, said, [plan[1]]);
      said := said + [plan[1]];
    }
    assert h.log == log0 + said;
    h.Say(Info("Would copy from " + absSource + " to " + absDest
      + " (options: dereference=" + BoolText(!preserveSymlinks)
      + ", recursive=true, force=" + BoolText(force) + ")"));
    assert plan == said + [plan[|plan| - 1]];
    AppendAssoc(log0, said, [plan[|plan| - 1]]);
  }

  /** The mkdir / rm / cp calls of `copyPath` against the host. */
  method RunTransfer(h: Host, absSource: Path, absDest: Path, force: bool, preserveSymlinks: bool)
    returns (r: Outcome<Thrown<ErrorCode>>)
    modifies h
    ensures var run := Transfer(old(h.fs), h.faults, absSource, absDest, force, preserveSymlinks);
      && r == run.outcome && h.fs == run.fs
      && h.calls == old(h.calls) + run.calls && h.log == old(h.log)
  {
    ghost var fs0, calls0 := h.fs, h.calls;
    var made := h.Mkdir(Dirname(absDest), true);
    ghost var mk := MkdirResult(fs0, Dirname(absDest), true);
    ghost var trace := [MkdirCall(Dirname(absDest), true)];
    if made.Fail? {
      assert mk.Failure?;
      return Fail(Native(made.error));
    }
    ghost var fs1 := h.fs;
    assert fs1 == mk.value;
    ghost var removed: Result<Fs, Errno> := Success(fs1);
    if force {
      var gone := h.Rm(absDest, true, true);
      removed := RmResult(fs1, h.faults, absDest, true, true);
      AppendAssoc(calls0, trace, [RmCall(absDest, true, true)]);
      trace := trace + [RmCall(absDest, true, true)];
      if gone.Fail? {
        assert removed.Failure?;
        return Fail(Native(gone.error));
      }
    }
    ghost var fs2 := h.fs;
    assert removed.Success? && fs2 == removed.value;
    assert h.calls == calls0 + trace;
    var copied := h.Cp(absSource, absDest, true, !preserveSymlinks, force);
    AppendAssoc(calls0, trace, [CpCall(absSource, absDest, true, !preserveSymlinks, force)]);
    r := if copied.Pass? then Pass else Fail(Native(copied.error));
  }

  /** Every entry of the tree at `root` is the same in `a` and `b`. */
  predicate SameTree(a: Fs, b: Fs, root: Path) {
    && (forall p | p in a && InTree(root, p) :: p in b && b[p] == a[p])
    && (forall p | p in b && InTree(root, p) :: p in a)
  }

  /** A recursive `mkdir` of a directory outside the tree at `root` leaves
      that tree alone. */
  lemma MkdirOutsideTree(fs: Fs, dir: Path, root: Path)
    requires MkdirResult(fs, dir, true).Success?
    requires !InTree(root, dir)
    ensures SameTree(fs, MkdirResult(fs, dir, true).value, root)
  {
    var fs1 := MkdirResult(fs, dir, true).value;
    forall p | p in fs1 && InTree(root, p)
      ensures p in fs
    {
      if p !in fs {
        AncestorsContain(dir, p);
        InTreeTransitive(root, p, dir);
      }
    }
  }

  lemma SameTreeTransitive(a: Fs, b: Fs, c: Fs, root: Path)
    requires SameTree(a, b, root) && SameTree(b, c, root)
    ensures SameTree(a, c, root)
  {
  }

  /** `out` holds under `dst` exactly a relocated copy of the tree at `src`
      in `orig`: every entry of that tree reappears under `dst` unchanged,
      and every entry under `dst` comes from that tree. */
  predicate Mirrors(out: Fs, orig: Fs, src: Path, dst: Path) {
    && (forall p | p in orig && InTree(src, p) ::
          Relocate(src, dst, p) in out && out[Relocate(src, dst, p)] == orig[p])
    && (forall q | q in out && InTree(dst, q) ::
          Origin(src, dst, q) in orig && InTree(src, Origin(src, dst, q)) && out[q] == orig[Origin(src, dst, q)])
  }

  lemma MirrorsOfSameTree(out: Fs, a: Fs, b: Fs, src: Path, dst: Path)
    requires SameTree(a, b, src) && Mirrors(out, b, src, dst)
    ensures Mirrors(out, a, src, dst)
  {
  }

  /** Copying onto a destination whose tree is empty mirrors the source
      there and leaves the source alone. */
  lemma CopyOntoClearedTree(fs: Fs, src: Path, dst: Path)
    requires ValidPath(src) && ValidPath(dst) && !InTree(src, dst) && !InTree(dst, src)
    requires forall p | p in fs && InTree(src, p) :: ValidPath(p)
    requires forall q | q in fs :: !InTree(dst, q)
    ensures Mirrors(fs + Copied(fs, src, dst), fs, src, dst)
    ensures SameTree(fs, fs + Copied(fs, src, dst), src)
  {
    var copied := Copied(fs, src, dst);
    var out := fs + copied;
    forall p | p in fs && InTree(src, p)
      ensures Relocate(src, dst, p) in out && out[Relocate(src, dst, p)] == fs[p]
    {
      CopiedAt(fs, src, dst, p);
    }
    forall q | q in out && InTree(dst, q)
      ensures Origin(src, dst, q) in fs && InTree(src, Origin(src, dst, q)) && out[q] == fs[Origin(src, dst, q)]
    {
      CopiedFrom(fs, src, dst, q);
    }
    forall p | p in copied
      ensures !InTree(src, p)
    {
      CopiedFrom(fs, src, dst, p);
      TreesDisjoint(src, dst, p);
    }
  }

  /** The three calls of a forced copy, when the parent can be made and the
      destination can be removed. */
  lemma ForcedTransferSteps(fs: Fs, faults: map<Path, Errno>, src: Path, dst: Path, preserveSymlinks: bool)
    requires ValidPath(src) && ValidPath(dst)
    requires src in fs && !InTree(src, dst) && !InTree(dst, src)
    requires dst !in faults
    requires forall a | a in Ancestry(Dirname(dst)) :: a !in fs || !fs[a].File?
    ensures MkdirResult(fs, Dirname(dst), true).Success?
    ensures var cleared := RemoveTree(MkdirResult(fs, Dirname(dst), true).value, dst);
      && SameTree(fs, cleared, src)
      && (forall q | q in cleared :: !InTree(dst, q))
      && Transfer(fs, faults, src, dst, true, preserveSymlinks).outcome == Pass
      && Transfer(fs, faults, src, dst, true, preserveSymlinks).fs == cleared + Copied(cleared, src, dst)
  {
    var parent := Dirname(dst);
    assert InTree(parent, dst);
    var fs1 := MkdirResult(fs, parent, true).value;
    assert !InTree(src, parent) by {
      if InTree(src, parent) {
        InTreeTransitive(src, parent, dst);
      }
    }
    MkdirOutsideTree(fs, parent, src);
    var fs2 := RemoveTree(fs1, dst);
    assert SameTree(fs1, fs2, src) by {
      forall p | InTree(src, p)
        ensures !InTree(dst, p)
      {
        TreesDisjoint(src, dst, p);
      }
    }
    SameTreeTransitive(fs, fs1, fs2, src);
  }

  /** A forced copy onto a destination that is neither inside nor above the
      source succeeds, makes the destination an exact mirror of the source
      tree (files replaced, stale entries gone) and leaves the source as it
      was (the forced-overwrite case of copy.test.ts). */
  lemma ForceCopyMirrorsSource(fs: Fs, faults: map<Path, Errno>, src: Path, dst: Path, preserveSymlinks: bool)
    requires ValidPath(src) && ValidPath(dst)
    requires forall p | p in fs :: ValidPath(p)
    requires src in fs && !InTree(src, dst) && !InTree(dst, src)
    requires dst !in faults
    requires forall a | a in Ancestry(Dirname(dst)) :: a !in fs || !fs[a].File?
    ensures var run := Copy(fs, faults, src, dst, true, preserveSymlinks, false);
      && run.outcome == Pass
      && Mirrors(run.fs, fs, src, dst)
      && SameTree(fs, run.fs, src)
  {
    SubPathIsInTree(src, dst);
    ForcedTransferSteps(fs, faults, src, dst, preserveSymlinks);
    var cleared := RemoveTree(MkdirResult(fs, Dirname(dst), true).value, dst);
    CopyOntoClearedTree(cleared, src, dst);
    var out := cleared + Copied(cleared, src, dst);
    MirrorsOfSameTree(out, fs, cleared, src, dst);
    SameTreeTransitive(fs, cleared, out, src);
  }

  /** Without `--force`, a copy never changes an entry that already exists. */
  lemma MergeKeepsExisting(fs: Fs, faults: map<Path, Errno>, src: Path, dst: Path, preserveSymlinks: bool, p: Path)
    requires p in fs
    ensures var run := Copy(fs, faults, src, dst, false, preserveSymlinks, false);
      p in run.fs && run.fs[p] == fs[p]
  {
  }

  /** The guard looks one way only: with `--force`, a destination that is an
      existing ancestor of the source is removed first, taking the source
      with it, and the copy then fails with ENOENT. */
  lemma ForceOntoAncestorLosesSource(fs: Fs, faults: map<Path, Errno>, src: Path, dst: Path, preserveSymlinks: bool)
    requires ValidPath(src) && ValidPath(dst)
    requires src in fs && dst in fs && src != dst && InTree(dst, src)
    requires dst !in faults
    requires forall a | a in Ancestry(Dirname(dst)) :: a !in fs || !fs[a].File?
    ensures var run := Copy(fs, faults, src, dst, true, preserveSymlinks, false);
      && run.outcome == Fail(Native(Some("ENOENT")))
      && src !in run.fs && dst !in run.fs
  {
    assert !InTree(src, dst);
    SubPathIsInTree(src, dst);
  }
}
