/** The filesystem the three tools act on, as a map from absolute path
    strings to entries, with the separator fixed to '/'; the operations
    `mkdir`, `rm`, `cp` of node:fs/promises as functions on that map; and
    a `Host` object holding the map, the console log and the trace of
    filesystem calls a run makes. */
module FileSystem {
  import opened Wrappers
  import opened Text
  import opened CliErrors

  type Path = string

  const Sep: char := '/'

  datatype Entry = File(data: string) | Dir | Link(target: Path)

  type Fs = map<Path, Entry>

  /** An absolute path as `path.resolve` returns it: it starts with the
      separator, has no empty segment and no trailing separator (except the
      root). */
  predicate ValidPath(p: Path) {
    && |p| > 0 && p[0] == Sep
    && (p == [Sep] || p[|p| - 1] != Sep)
    && forall i | 0 <= i < |p| - 1 :: p[i] == Sep ==> p[i + 1] != Sep
  }

  /** `p` with a separator appended unless it already ends in one. */
  function WithSep(p: Path): (r: Path)
    ensures StartsWith(r, p) && r != [] && r[|r| - 1] == Sep
    ensures |r| <= |p| + 1
  {
    if p != [] && p[|p| - 1] == Sep then p else p + [Sep]
  }

  /** `p` is `root` itself or lies underneath it. */
  predicate InTree(root: Path, p: Path) {
    p == root || StartsWith(p, WithSep(root))
  }

  lemma InTreeTransitive(a: Path, b: Path, c: Path)
    requires InTree(a, b) && InTree(b, c)
    ensures InTree(a, c)
  {
    if a != b && b != c {
      StartsWithTransitive(c, b, WithSep(b));
      StartsWithTransitive(c, WithSep(a), b);
    }
  }

  /** Two valid paths neither of which lies under the other have disjoint trees. */
  lemma TreesDisjoint(a: Path, b: Path, p: Path)
    requires ValidPath(a) && ValidPath(b)
    requires !InTree(a, b) && !InTree(b, a)
    ensures !(InTree(a, p) && InTree(b, p))
  {
    if InTree(a, p) && InTree(b, p) {
      assert p != a && p != b;
      if |WithSep(a)| <= |WithSep(b)| {
        PrefixesAreOrdered(p, WithSep(a), WithSep(b));
        BelowWithSep(a, b);
      } else {
        PrefixesAreOrdered(p, WithSep(b), WithSep(a));
        BelowWithSep(b, a);
      }
      assert false;
    }
  }

  lemma BelowWithSep(a: Path, b: Path)
    requires ValidPath(a) && ValidPath(b)
    requires StartsWith(WithSep(b), WithSep(a))
    ensures InTree(a, b)
  {
    var wa, wb := WithSep(a), WithSep(b);
    if b != [Sep] {
      assert wb == b + [Sep];
      if |wa| <= |b| {
        assert b[..|wa|] == wb[..|wa|];
      } else {
        assert wa == wb;
        assert a != [Sep];
        assert a == wa[..|wa| - 1] == b;
      }
    }
  }

  /** Index of the last separator in `p`, or -1. */
  function LastSep(p: Path): (i: int)
    ensures -1 <= i < |p|
    ensures i >= 0 ==> p[i] == Sep
    ensures forall j | i < j < |p| :: p[j] != Sep
    decreases |p|
  {
    if p == [] then -1 else if p[|p| - 1] == Sep then |p| - 1 else LastSep(p[..|p| - 1])
  }

  /** `path.dirname(p)` for a path without a trailing separator: everything
      before the last separator, the root when that is the first character,
      and "." when there is no separator. */
  function Dirname(p: Path): (r: Path)
    ensures LastSep(p) >= 0 && p != [Sep] ==> |r| < |p|
    ensures LastSep(p) >= 0 ==> InTree(r, p)
  {
    var i := LastSep(p);
    if i < 0 then "."
    else if i == 0 then [Sep]
    else
      var d := p[..i];
      assert StartsWith(p, d + [Sep]) by {
        assert p[..i + 1] == d + [Sep];
      }
      d
  }

  /** `dir` and every directory above it, as `mkdir(dir, { recursive: true })`
      walks them. */
  function Ancestry(dir: Path): (a: set<Path>)
    ensures dir in a
    decreases |dir|
  {
    if LastSep(dir) < 0 || dir == [Sep] then {dir} else {dir} + Ancestry(Dirname(dir))
  }

  lemma {:induction false} AncestorsContain(dir: Path, x: Path)
    requires x in Ancestry(dir)
    ensures InTree(x, dir)
    decreases |dir|
  {
    if x != dir {
      AncestorsContain(Dirname(dir), x);
      InTreeTransitive(x, Dirname(dir), dir);
    }
  }

  /** `path.join(dir, name)` for a name without separators or dot segments. */
  function Join(dir: Path, name: string): (r: Path)
    ensures StartsWith(r, WithSep(dir))
  {
    WithSep(dir) + name
  }

  /** `path.resolve(p)` against the working directory `cwd`; `.` and `..`
      segments are not normalised away. */
  function Resolve(cwd: Path, p: string): (r: Path)
    ensures p == [] ==> r == cwd
  {
    if p == [] then cwd else if StartsWith(p, [Sep]) then p else Join(cwd, p)
  }

  /** Against an absolute working directory every path resolves to an
      absolute one, and a relative path to one below the working
      directory. */
  lemma ResolveShape(cwd: Path, p: string)
    requires cwd != [] && cwd[0] == Sep
    ensures var r := Resolve(cwd, p); r != [] && r[0] == Sep
    ensures p != [] && p[0] != Sep ==> StartsWith(Resolve(cwd, p), WithSep(cwd))
  {
  }

  /** `mkdir(dir, { recursive })`. The recursive form creates every missing
      directory of `Ancestry(dir)` and fails only when one of them is a file;
      the plain form needs an existing parent and a missing `dir`. */
  function MkdirResult(fs: Fs, dir: Path, recursive: bool): (r: Result<Fs, Errno>)
    ensures r.Success? ==> dir in r.value
    ensures r.Success? ==> forall p | p in fs :: p in r.value && r.value[p] == fs[p]
    ensures r.Success? ==> forall p | p in r.value && p !in fs :: p in Ancestry(dir) && r.value[p] == Dir
  {
    if recursive then
      if exists a | a in Ancestry(dir) :: a in fs && fs[a].File? then
        Failure(Some(if dir in fs && fs[dir].File? then "EEXIST" else "ENOTDIR"))
      else
        Success(fs + map a | a in Ancestry(dir) && a !in fs :: Dir)
    else if dir in fs then Failure(Some("EEXIST"))
    else if Dirname(dir) !in fs then Failure(Some("ENOENT"))
    else if fs[Dirname(dir)].File? then Failure(Some("ENOTDIR"))
    else Success(fs[dir := Dir])
  }

  /** `fs` without `root` and everything under it. */
  function RemoveTree(fs: Fs, root: Path): (r: Fs)
    ensures forall p :: p in r <==> p in fs && !InTree(root, p)
    ensures forall p | p in r :: r[p] == fs[p]
  {
    map p | p in fs && !InTree(root, p) :: fs[p]
  }

  /** `rm(p, { recursive, force })`. `faults` is the oracle for the failures
      the map cannot explain (permissions, busy devices): a path in it fails
      with the given code and changes nothing. A missing path is an `ENOENT`
      failure unless `force` is set; with `force` it removes nothing (in a
      real tree nothing lies under a missing path; in a map that is not
      closed under parents, the entries under it go too). */
  function RmResult(fs: Fs, faults: map<Path, Errno>, p: Path, recursive: bool, force: bool): (r: Result<Fs, Errno>)
    ensures r.Success? ==> r.value == RemoveTree(fs, p)
    ensures r.Failure? <==> p in faults || (p !in fs && !force) || (p in fs && fs[p].Dir? && !recursive)
    ensures p in faults ==> r == Failure(faults[p])
    ensures p !in faults && p !in fs && !force ==> r == Failure(Some("ENOENT"))
  {
    if p in faults then Failure(faults[p])
    else if p !in fs && !force then Failure(Some("ENOENT"))
    else if p in fs && fs[p].Dir? && !recursive then Failure(Some("ERR_FS_EISDIR"))
    else Success(RemoveTree(fs, p))
  }

  /** Where `cp` puts the entry `p` of the tree at `src` when copying to `dst`. */
  function Relocate(src: Path, dst: Path, p: Path): (q: Path)
    requires InTree(src, p)
    ensures InTree(dst, q)
  {
    if p == src then dst else WithSep(dst) + p[|WithSep(src)|..]
  }

  /** The entry of the tree at `src` that `cp` copies to `q` under `dst`. */
  function Origin(src: Path, dst: Path, q: Path): Path
    requires InTree(dst, q)
  {
    if q == dst then src else WithSep(src) + q[|WithSep(dst)|..]
  }

  lemma OriginOfRelocate(src: Path, dst: Path, p: Path)
    requires ValidPath(src) && ValidPath(p) && InTree(src, p)
    ensures Origin(src, dst, Relocate(src, dst, p)) == p
  {
    if p != src {
      var suffix := p[|WithSep(src)|..];
      var q := WithSep(dst) + suffix;
      assert p != [Sep] by {
        if src != [Sep] {
          assert |WithSep(src)| == |src| + 1 >= 2;
        }
      }
      assert |suffix| > 0;
      assert q != dst;
      assert q[|WithSep(dst)|..] == suffix;
      assert p == WithSep(src) + suffix;
    }
  }

  /** The entries a recursive `cp` from `src` to `dst` writes, keyed by
      their new paths. */
  function Copied(fs: Fs, src: Path, dst: Path): map<Path, Entry> {
    var targets := set p | p in fs && InTree(src, p) :: Relocate(src, dst, p);
    map q | q in targets && InTree(dst, q) ::
      var o := Origin(src, dst, q); if o in fs then fs[o] else Dir
  }

  lemma CopiedAt(fs: Fs, src: Path, dst: Path, p: Path)
    requires ValidPath(src) && ValidPath(p) && p in fs && InTree(src, p)
    ensures Relocate(src, dst, p) in Copied(fs, src, dst)
    ensures Copied(fs, src, dst)[Relocate(src, dst, p)] == fs[p]
  {
    OriginOfRelocate(src, dst, p);
  }

  lemma CopiedFrom(fs: Fs, src: Path, dst: Path, q: Path)
    requires ValidPath(src)
    requires forall p | p in fs && InTree(src, p) :: ValidPath(p)
    requires q in Copied(fs, src, dst)
    ensures InTree(dst, q)
    ensures Origin(src, dst, q) in fs && InTree(src, Origin(src, dst, q))
    ensures Relocate(src, dst, Origin(src, dst, q)) == q
    ensures Copied(fs, src, dst)[q] == fs[Origin(src, dst, q)]
  {
    var p :| p in fs && InTree(src, p) && Relocate(src, dst, p) == q;
    OriginOfRelocate(src, dst, p);
  }

  /** `cp(src, dst, { recursive, dereference, force })`: the tree at `src` is
      copied under `dst`; with `force` the copied entries replace existing
      ones, without it existing entries are kept. Links are copied as they
      are whatever `dereference` says. */
  function CpResult(fs: Fs, src: Path, dst: Path, recursive: bool, dereference: bool, force: bool): (r: Result<Fs, Errno>)
    ensures src !in fs ==> r == Failure(Some("ENOENT"))
    ensures r.Success? ==> forall q | q in fs :: q in r.value
    ensures r.Success? ==> forall q | q in r.value && q !in fs :: q in Copied(fs, src, dst)
    ensures r.Success? && force ==> forall q | q in Copied(fs, src, dst) :: q in r.value && r.value[q] == Copied(fs, src, dst)[q]
  {
    if src !in fs then Failure(Some("ENOENT"))
    else if fs[src].Dir? && !recursive then Failure(Some("ERR_FS_EISDIR"))
    else Success(if force then fs + Copied(fs, src, dst) else Copied(fs, src, dst) + fs)
  }

  /** The map after a call that either succeeded with `res` or failed. */
  function After(fs: Fs, res: Result<Fs, Errno>): Fs {
    if res.Success? then res.value else fs
  }

  /** What the awaited promise of a call reports. */
  function Report(res: Result<Fs, Errno>): (o: Outcome<Errno>)
    ensures o.Pass? <==> res.Success?
  {
    if res.Success? then Pass else Fail(res.error)
  }

  /** A filesystem call as the tools issue it, with the options they pass. */
  datatype Call =
    | MkdirCall(path: Path, recursive: bool)
    | RmCall(path: Path, recursive: bool, force: bool)
    | CpCall(source: Path, destination: Path, recursive: bool, dereference: bool, force: bool)
    | RenderCall(source: Path, size: int, output: Path)

  /** A console line: `console.log`, `console.error`, or the usage text. */
  datatype Line = Info(text: string) | Problem(text: string) | Usage

  /** The world a run sees: the filesystem, the failure oracle for `rm`,
      the console and the calls made so far. */
  class Host {
    var fs: Fs
    const faults: map<Path, Errno>
    var log: seq<Line>
    var calls: seq<Call>

    constructor (fs: Fs, faults: map<Path, Errno>)
      ensures this.fs == fs && this.faults == faults && log == [] && calls == []
    {
      this.fs := fs;
      this.faults := faults;
      log := [];
      calls := [];
    }

    /** `stat(p)` resolves, or `existsSync(p)` holds. */
    function Exists(p: Path): bool
      reads this
    {
      p in fs
    }

    method Mkdir(dir: Path, recursive: bool) returns (r: Outcome<Errno>)
      modifies this
      ensures calls == old(calls) + [MkdirCall(dir, recursive)] && log == old(log)
      ensures fs == After(old(fs), MkdirResult(old(fs), dir, recursive))
      ensures r == Report(MkdirResult(old(fs), dir, recursive))
    {
      var res := MkdirResult(fs, dir, recursive);
      calls := calls + [MkdirCall(dir, recursive)];
      fs := After(fs, res);
      r := Report(res);
    }

    method Rm(p: Path, recursive: bool, force: bool) returns (r: Outcome<Errno>)
      modifies this
      ensures calls == old(calls) + [RmCall(p, recursive, force)] && log == old(log)
      ensures fs == After(old(fs), RmResult(old(fs), faults, p, recursive, force))
      ensures r == Report(RmResult(old(fs), faults, p, recursive, force))
    {
      var res := RmResult(fs, faults, p, recursive, force);
      calls := calls + [RmCall(p, recursive, force)];
      fs := After(fs, res);
      r := Report(res);
    }

    method Cp(src: Path, dst: Path, recursive: bool, dereference: bool, force: bool) returns (r: Outcome<Errno>)
      modifies this
      ensures calls == old(calls) + [CpCall(src, dst, recursive, dereference, force)] && log == old(log)
      ensures fs == After(old(fs), CpResult(old(fs), src, dst, recursive, dereference, force))
      ensures r == Report(CpResult(old(fs), src, dst, recursive, dereference, force))
    {
      var res := CpResult(fs, src, dst, recursive, dereference, force);
      calls := calls + [CpCall(src, dst, recursive, dereference, force)];
      fs := After(fs, res);
      r := Report(res);
    }

    /** The image library writing one resized copy of `src` to `output`,
        recorded as an event; the map does not follow it. */
    method Render(src: Path, size: int, output: Path)
      modifies this
      ensures calls == old(calls) + [RenderCall(src, size, output)]
      ensures fs == old(fs) && log == old(log)
    {
      calls := calls + [RenderCall(src, size, output)];
    }

    method Say(line: Line)
      modifies this
      ensures log == old(log) + [line]
      ensures fs == old(fs) && calls == old(calls)
    {
      log := log + [line];
    }
  }
}
