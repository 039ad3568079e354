/** `removePath` of the `ourdelete` tool: one recursive `rm`, whose failure
    is either ignored (a missing path), raised (strict mode) or swallowed. */
module DeleteEngine {
  import opened Wrappers
  import opened CliErrors
  import opened DeleteErrors
  import opened FileSystem

  /** The DELETE_FAILED error for `absPath`, naming the errno code or
      `UNKNOWN` when the failure has none. */
  function Failed(absPath: Path, code: Errno): (e: Error)
    ensures e.code == DeleteFailed && e.exitCode == 1
    ensures e.message == "Failed to delete: " + absPath + " (" + code.GetOr("UNKNOWN") + ")"
  {
    NewCliError(DeleteFailed, "Failed to delete: " + absPath + " (" + code.GetOr("UNKNOWN") + ")")
  }

  /** What `removePath` makes of the outcome of its `rm`: the error it
      throws, if any. */
  function Classify(o: Outcome<Errno>, absPath: Path, strict: bool): (e: Option<Error>)
    ensures e.Some? <==> strict && o.Fail? && o.error != Some("ENOENT")
    ensures e.Some? ==> e.value == Failed(absPath, o.error)
  {
    match o
    case Pass => None
    case Fail(code) =>
      if code == Some("ENOENT") then None
      else if strict then Some(Failed(absPath, code))
      else None
  }

  /** The tree after `removePath` and the error it throws. */
  datatype Removal = Removal(fs: Fs, error: Option<Error>)

  /** `removePath({ absPath, force, strict })` on the map `fs`. */
  function Remove(fs: Fs, faults: map<Path, Errno>, absPath: Path, force: bool, strict: bool): (r: Removal)
    ensures r.error.Some? <==> strict && absPath in faults && faults[absPath] != Some("ENOENT")
    ensures r.error.Some? ==> r.error.value == Failed(absPath, faults[absPath])
    ensures absPath in faults ==> r.fs == fs
    ensures absPath !in faults && (absPath in fs || force) ==> r.fs == RemoveTree(fs, absPath)
    ensures absPath !in faults && absPath !in fs && !force ==> r.fs == fs
  {
    var res := RmResult(fs, faults, absPath, true, force);
    Removal(After(fs, res), Classify(Report(res), absPath, strict))
  }

  /** Without `strict` nothing is ever thrown; a path `rm` does not fail on
      is never an error; and a missing path, without `force`, leaves the
      tree as it was and is not an error either. */
  lemma QuietUnlessStrict(fs: Fs, faults: map<Path, Errno>, absPath: Path, force: bool, strict: bool)
    ensures !strict ==> Remove(fs, faults, absPath, force, strict).error == None
    ensures absPath !in faults ==> Remove(fs, faults, absPath, force, strict).error == None
    ensures absPath !in fs && absPath !in faults && !force ==> Remove(fs, faults, absPath, force, strict) == Removal(fs, None)
  {
  }

  /** A path that `rm` can remove is gone afterwards, with everything under
      it, and nothing outside its tree changes. */
  lemma RemovedWithTree(fs: Fs, faults: map<Path, Errno>, absPath: Path, force: bool, strict: bool)
    requires absPath in fs && absPath !in faults
    ensures var r := Remove(fs, faults, absPath, force, strict);
      r.error == None
      && (forall p | InTree(absPath, p) :: p !in r.fs)
      && (forall p | p in fs && !InTree(absPath, p) :: p in r.fs && r.fs[p] == fs[p])
  {
  }

  /** `removePath`: one `rm(absPath, { recursive: true, force })`; the error
      it throws is the `Failure`. */
  method RemovePath(h: Host, absPath: Path, force: bool, strict: bool) returns (r: Outcome<Error>)
    modifies h
    ensures h.calls == old(h.calls) + [RmCall(absPath, true, force)] && h.log == old(h.log)
    ensures h.fs == Remove(old(h.fs), h.faults, absPath, force, strict).fs
    ensures r == match Remove(old(h.fs), h.faults, absPath, force, strict).error
      case Some(e) => Fail(e)
      case None => Pass
  {
    var o := h.Rm(absPath, true, force);
    match o
    case Pass =>
      r := Pass;
    case Fail(code) =>
      if code == Some("ENOENT") {
        r := Pass;
      } else if strict {
        r := Fail(Failed(absPath, code));
      } else {
        r := Pass;
      }
  }
}
