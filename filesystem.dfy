/**
 * The local filesystem as the build routine sees it: a finite map from a
 * path (relative to the application's base directory, one string per
 * component) to a file with its text or a directory. The base directory
 * itself is the empty path and is never a key.
 *
 * The pure functions give the effect of each `os` / `shutil` call the
 * build routine makes; the `Disk` class holds the one mutable map and
 * offers those calls as methods.
 */
module FileSystem {
  import opened Wrappers
  import opened Text

  type Path = seq<string>

  datatype Node = File(content: string) | Dir

  type Tree = map<Path, Node>

  /** The `OSError` subclasses the calls below raise. */
  datatype OsError =
    | NoSuchFile(path: Path)      // FileNotFoundError
    | NotADirectory(path: Path)   // NotADirectoryError
    | IsADirectory(path: Path)    // IsADirectoryError
    | FileExists(path: Path)      // FileExistsError
    | PermissionDenied(path: Path) // PermissionError

  /** `q` is `p` itself or lies somewhere below it. */
  predicate Within(p: Path, q: Path)
  {
    |p| <= |q| && q[..|p|] == p
  }

  /** Neither path lies inside the other. */
  predicate Disjoint(p: Path, q: Path)
  {
    !Within(p, q) && !Within(q, p)
  }

  /** The position of `q` relative to `p`. */
  function Rel(p: Path, q: Path): (r: Path)
    requires Within(p, q)
    ensures p + r == q
  {
    q[|p|..]
  }

  function Parent(p: Path): Path
    requires p != []
  {
    p[..|p| - 1]
  }

  /** `os.path.isdir`; the base directory always is one. */
  predicate IsDirAt(fs: Tree, p: Path)
  {
    p == [] || (p in fs && fs[p].Dir?)
  }

  /** `os.path.exists`. */
  predicate Exists(fs: Tree, p: Path)
  {
    p == [] || p in fs
  }

  /** `p` and every directory on the way to it are directories. */
  predicate DirChain(fs: Tree, p: Path)
  {
    forall k :: 0 <= k <= |p| ==> IsDirAt(fs, p[..k])
  }

  /** The shape of a real filesystem: the base directory is implicit and every ancestor of an entry is a directory. */
  ghost predicate WellFormed(fs: Tree)
  {
    && [] !in fs
    && forall q, k :: q in fs && 0 <= k < |q| ==> IsDirAt(fs, q[..k])
  }

  /** Nothing lies strictly below `p`. */
  ghost predicate EmptyBelow(fs: Tree, p: Path)
  {
    forall q :: q in fs && Within(p, q) ==> q == p
  }

  /** The entries at and below `p`, keyed by their position relative to `p`. */
  function Sub(fs: Tree, p: Path): Tree
  {
    map r | r in (set q | q in fs && Within(p, q) :: Rel(p, q)) :: fs[p + r]
  }

  /** `fs` with the tree `t` laid over it at `p`: entries of `t` replace what is there, everything else stays. */
  function Graft(fs: Tree, p: Path, t: Tree): Tree
  {
    fs + map q | q in (set r | r in t :: p + r) :: t[q[|p|..]]
  }

  /** `fs` without `p` and everything below it. */
  function Prune(fs: Tree, p: Path): Tree
  {
    map q | q in fs && !Within(p, q) :: fs[q]
  }

  /** `os.listdir(p)`: the names of the entries directly inside `p`. */
  function Children(fs: Tree, p: Path): set<string>
  {
    set q | q in fs && |q| == |p| + 1 && Within(p, q) :: q[|p|]
  }

  /** `p` and its ancestors, the base directory excluded. */
  function Ancestors(p: Path): set<Path>
  {
    set k | 0 < k <= |p| :: p[..k]
  }

  lemma SubAt(fs: Tree, p: Path, r: Path)
    ensures r in Sub(fs, p) <==> p + r in fs
    ensures r in Sub(fs, p) ==> Sub(fs, p)[r] == fs[p + r]
  {
    if p + r in fs {
      assert Rel(p, p + r) == r;
    }
  }

  lemma GraftAt(fs: Tree, p: Path, t: Tree, q: Path)
    ensures q in Graft(fs, p, t) <==> q in fs || (Within(p, q) && q[|p|..] in t)
    ensures q in Graft(fs, p, t) ==>
      Graft(fs, p, t)[q] == if Within(p, q) && q[|p|..] in t then t[q[|p|..]] else fs[q]
  {
    if Within(p, q) {
      assert p + q[|p|..] == q;
    }
  }

  /** What the filesystem holds at `q`, if anything. */
  function Lookup(fs: Tree, q: Path): Option<Node>
  {
    if q in fs then Some(fs[q]) else None
  }

  /** Two filesystems that hold the same thing at every path are the same. */
  lemma SameLookup(a: Tree, b: Tree)
    requires forall q :: Lookup(a, q) == Lookup(b, q)
    ensures a == b
  {
    forall q | q in a
      ensures q in b && a[q] == b[q]
    {
      assert Lookup(a, q) == Lookup(b, q);
    }
    forall q | q in b
      ensures q in a
    {
      assert Lookup(a, q) == Lookup(b, q);
    }
  }

  lemma LookupGraft(fs: Tree, p: Path, t: Tree, q: Path)
    ensures Lookup(Graft(fs, p, t), q) ==
      if Within(p, q) && q[|p|..] in t then Some(t[q[|p|..]]) else Lookup(fs, q)
  {
    GraftAt(fs, p, t, q);
  }

  lemma GraftInside(fs: Tree, p: Path, t: Tree, r: Path)
    ensures Lookup(Graft(fs, p, t), p + r) == if r in t then Some(t[r]) else Lookup(fs, p + r)
  {
    GraftAt(fs, p, t, p + r);
    assert (p + r)[|p|..] == r;
  }

  lemma GraftOutside(fs: Tree, p: Path, t: Tree, q: Path)
    requires !Within(p, q)
    ensures Lookup(Graft(fs, p, t), q) == Lookup(fs, q)
  {
    GraftAt(fs, p, t, q);
  }

  lemma LookupSub(fs: Tree, p: Path, r: Path)
    ensures Lookup(Sub(fs, p), r) == Lookup(fs, p + r)
  {
    SubAt(fs, p, r);
  }

  /** Every name `os.listdir(p)` reports is an entry of `p`. */
  lemma ChildEntry(fs: Tree, p: Path, x: string)
    requires x in Children(fs, p)
    ensures p + [x] in fs
  {
    var q :| q in fs && |q| == |p| + 1 && Within(p, q) && q[|p|] == x;
    assert q == p + [x];
  }

  /** `os.makedirs(p, exist_ok=True)`: creates every missing directory on the way; fails on a file in the way. */
  function MakeDirs(fs: Tree, p: Path): Result<Tree, OsError>
  {
    if exists k :: 0 < k < |p| && p[..k] in fs && fs[p[..k]].File? then Err(NotADirectory(p))
    else if p in fs && fs[p].File? then Err(FileExists(p))
    else Ok(fs + map a | a in Ancestors(p) :: Dir)
  }

  /** The error `shutil.rmtree(p)` raises, if any. */
  function RemoveTreeError(fs: Tree, p: Path): Option<OsError>
  {
    if p != [] && p !in fs then Some(NoSuchFile(p))
    else if p in fs && fs[p].File? then Some(NotADirectory(p))
    else None
  }

  /** Some directory on the way to `p`, `p` itself excluded, is a file. */
  predicate FileAbove(fs: Tree, p: Path)
  {
    exists k :: 0 < k < |p| && p[..k] in fs && fs[p[..k]].File?
  }

  /** `open(p, 'rb').read()`: the file's contents as they are stored. */
  function ReadFile(fs: Tree, p: Path): Result<string, OsError>
  {
    if p == [] || (p in fs && fs[p].Dir?) then Err(IsADirectory(p))
    else if p !in fs then (if FileAbove(fs, p) then Err(NotADirectory(p)) else Err(NoSuchFile(p)))
    else Ok(fs[p].content)
  }

  /** `open(p, 'r', encoding='utf-8').read()`: the file's text, line ends translated as universal newlines. */
  function ReadTextFile(fs: Tree, p: Path): Result<string, OsError>
  {
    match ReadFile(fs, p)
    case Err(e) => Err(e)
    case Ok(c) => Ok(Universal(c))
  }

  /** `open(p, 'w').write(c)`: creates or truncates a file whose directory exists. */
  function WriteFile(fs: Tree, p: Path, c: string): Result<Tree, OsError>
  {
    if p == [] then Err(IsADirectory(p))
    else if !IsDirAt(fs, Parent(p)) then
      (if FileAbove(fs, p) then Err(NotADirectory(p)) else Err(NoSuchFile(p)))
    else if p in fs && fs[p].Dir? then Err(IsADirectory(p))
    else Ok(fs[p := File(c)])
  }

  /** `shutil.copy2(src, dst)`: a destination that is a directory receives the file under its own name. */
  function CopyFile(fs: Tree, src: Path, dst: Path): Result<Tree, OsError>
  {
    match ReadFile(fs, src)
    case Err(e) => Err(e)
    case Ok(c) =>
      var target := if IsDirAt(fs, dst) && src != [] then dst + [src[|src| - 1]] else dst;
      WriteFile(fs, target, c)
  }

  /**
   * The exception `subprocess.run(['./' + program, ...], cwd=cwd)` raises
   * before the program runs: the working directory cannot be entered, or
   * the program is missing, a directory or not executable.
   */
  function LaunchError(fs: Tree, cwd: Path, program: string, executable: bool): Option<OsError>
  {
    var exe := cwd + [program];
    if !IsDirAt(fs, cwd) then Some(if cwd in fs || FileAbove(fs, cwd) then NotADirectory(cwd) else NoSuchFile(cwd))
    else if exe !in fs then Some(NoSuchFile(exe))
    else if fs[exe].Dir? || !executable then Some(PermissionDenied(exe))
    else None
  }

  /** What `shutil.unpack_archive` finds in an archive's bytes: a tree relative to the extraction directory, or a reason it cannot read them. */
  datatype Archive = Unpacked(tree: Tree) | Unreadable(reason: string)

  /** The errors `shutil.unpack_archive` raises: the archive file cannot be opened, or its contents cannot be read (`shutil.ReadError`). */
  datatype ExtractError = NoArchive(cause: OsError) | BadArchive(reason: string)

  /** Every tree the unpacker yields has the shape of a directory's contents. */
  ghost predicate Unpacks(unpack: string -> Archive)
  {
    forall c :: unpack(c).Unpacked? ==> WellFormed(unpack(c).tree)
  }

  /** `shutil.unpack_archive(zip, dst)`: read the archive, then lay its tree out below `dst`. */
  function UnpackArchive(fs: Tree, zip: Path, dst: Path, unpack: string -> Archive): Result<Tree, ExtractError>
  {
    match ReadFile(fs, zip)
    case Err(e) => Err(NoArchive(e))
    case Ok(bytes) =>
      match unpack(bytes)
      case Unreadable(reason) => Err(BadArchive(reason))
      case Unpacked(t) => Ok(Graft(fs, dst, t))
  }

  /** Entries of `fs` at `p` and below and entries of `t` never disagree about being a directory. */
  predicate Fits(fs: Tree, p: Path, t: Tree)
  {
    forall r :: r in t && p + r in fs ==> t[r].Dir? == fs[p + r].Dir?
  }

  /**
   * `shutil.copytree(s, d, dirs_exist_ok=True)`, for a destination whose
   * entries fit the source: create `d`, then lay the tree at `s` over it.
   */
  function CopyTree(fs: Tree, s: Path, d: Path): Result<Tree, OsError>
  {
    if !Exists(fs, s) then Err(NoSuchFile(s))
    else if !IsDirAt(fs, s) then Err(NotADirectory(s))
    else
      match MakeDirs(fs, d)
      case Err(e) => Err(e)
      case Ok(t) => Ok(Graft(t, d, Sub(fs, s)))
  }

  // ---------------------------------------------------------------------------
  // Path arithmetic

  /**
   * Resolve path components against a directory the way the operating
   * system does when it opens the joined string: empty and `.` components
   * are skipped and `..` goes up (staying at the base directory).
   */
  function Resolve(base: Path, parts: seq<string>): Path
    decreases |parts|
  {
    if parts == [] then base
    else if parts[0] == "" || parts[0] == "." then Resolve(base, parts[1..])
    else if parts[0] == ".." then Resolve(if base == [] then [] else Parent(base), parts[1..])
    else Resolve(base + [parts[0]], parts[1..])
  }

  /** `os.path.join(base, rel)` for a relative `rel`, as the system resolves it. */
  function JoinPath(base: Path, rel: string): Path
  {
    Resolve(base, Split(rel, "/"))
  }

  /** A relative path written as components joined by `/` resolves component by component. */
  lemma JoinPathOf(base: Path, rel: string, parts: seq<string>)
    requires |parts| >= 1 && (forall k :: 0 <= k < |parts| ==> '/' !in parts[k]) && rel == Join(parts, "/")
    ensures JoinPath(base, rel) == Resolve(base, parts)
  {
    JoinSplitInverse(parts, '/');
  }

  /** Ordinary components are appended one after another. */
  lemma {:induction false} ResolvePlain(base: Path, parts: seq<string>)
    requires forall k :: 0 <= k < |parts| ==> PlainName(parts[k])
    ensures Resolve(base, parts) == base + parts
    decreases |parts|
  {
    if parts != [] {
      ResolvePlain(base + [parts[0]], parts[1..]);
      assert base + [parts[0]] + parts[1..] == base + parts;
    }
  }

  /** A single ordinary path component. */
  predicate PlainName(s: string)
  {
    s != "" && s != "." && s != ".." && '/' !in s
  }

  /** Joining a plain name appends exactly one component. */
  lemma JoinPlainName(base: Path, name: string)
    requires PlainName(name)
    ensures JoinPath(base, name) == base + [name]
  {
    SplitNoChar(name, '/');
    assert Split(name, "/") == [name];
    assert [name][1..] == [];
    assert Resolve(base, [name]) == Resolve(base + [name], []);
  }

  /** A path written out as its components joined by `/` resolves back to itself. */
  lemma PathStringResolves(p: Path)
    requires |p| >= 1 && forall k :: 0 <= k < |p| ==> PlainName(p[k])
    ensures JoinPath([], Join(p, "/")) == p
  {
    JoinPathOf([], Join(p, "/"), p);
    ResolvePlain([], p);
  }

  // ---------------------------------------------------------------------------
  // Shape preservation

  lemma PruneWellFormed(fs: Tree, p: Path)
    requires WellFormed(fs)
    ensures WellFormed(Prune(fs, p))
  {
    var t := Prune(fs, p);
    forall q, k | q in t && 0 <= k < |q|
      ensures IsDirAt(t, q[..k])
    {
      assert IsDirAt(fs, q[..k]);
    }
  }

  lemma MakeDirsWellFormed(fs: Tree, p: Path)
    requires WellFormed(fs) && MakeDirs(fs, p).Ok?
    ensures WellFormed(MakeDirs(fs, p).value)
    ensures DirChain(MakeDirs(fs, p).value, p)
  {
    var t := MakeDirs(fs, p).value;
    assert forall a :: a in Ancestors(p) ==> a in t && t[a] == Dir;
    assert [] !in Ancestors(p);
    forall q, k | q in t && 0 <= k < |q|
      ensures IsDirAt(t, q[..k])
    {
      if q in Ancestors(p) {
        var j :| 0 < j <= |p| && q == p[..j];
        if k > 0 {
          assert q[..k] == p[..k];
          assert q[..k] in Ancestors(p);
        }
      } else {
        assert IsDirAt(fs, q[..k]);
      }
    }
    forall k | 0 <= k <= |p|
      ensures IsDirAt(t, p[..k])
    {
      if k > 0 {
        assert p[..k] in Ancestors(p);
      }
    }
  }

  /** The conditions under which laying `t` over `fs` at `p` keeps the filesystem well formed. */
  ghost predicate GraftFits(fs: Tree, p: Path, t: Tree)
  {
    && WellFormed(fs) && DirChain(fs, p) && p != []
    && (forall q, k :: q in t && 0 <= k < |q| ==> IsDirAt(t, q[..k]))
    && ([] in t ==> t[[]].Dir?)
    && Fits(fs, p, t)
  }

  /** An ancestor of an entry that came from `t` is a directory afterwards. */
  lemma GraftedAncestor(fs: Tree, p: Path, t: Tree, r: Path, k: nat)
    requires GraftFits(fs, p, t) && r in t && k < |p + r|
    ensures IsDirAt(Graft(fs, p, t), (p + r)[..k])
  {
    var q := p + r;
    var a := q[..k];
    GraftAt(fs, p, t, a);
    if k < |p| {
      assert a == p[..k];
      assert IsDirAt(fs, a);
      assert a == [] || !Within(p, a);
    } else if k == |p| {
      assert a == p;
      assert p[..|p|] == p;
      assert IsDirAt(fs, p[..|p|]);
      assert p in fs && fs[p].Dir?;
      assert Within(p, p) && p[|p|..] == [];
    } else {
      assert a == p + r[..k - |p|];
      assert a[|p|..] == r[..k - |p|];
      assert IsDirAt(t, r[..k - |p|]);
    }
  }

  /** An ancestor of an entry that was already there is still a directory afterwards. */
  lemma KeptAncestor(fs: Tree, p: Path, t: Tree, q: Path, k: nat)
    requires GraftFits(fs, p, t) && q in fs && k < |q|
    ensures IsDirAt(Graft(fs, p, t), q[..k])
  {
    var a := q[..k];
    assert IsDirAt(fs, a);
    GraftAt(fs, p, t, a);
    if a != [] && Within(p, a) && a[|p|..] in t {
      assert p + a[|p|..] == a;
      assert t[a[|p|..]].Dir? == fs[a].Dir?;
    }
  }

  /** Laying a well-formed tree over a directory chain keeps the filesystem well formed, when the two fit. */
  lemma GraftWellFormed(fs: Tree, p: Path, t: Tree)
    requires GraftFits(fs, p, t)
    ensures WellFormed(Graft(fs, p, t))
  {
    var g := Graft(fs, p, t);
    GraftAt(fs, p, t, []);
    forall q, k | q in g && 0 <= k < |q|
      ensures IsDirAt(g, q[..k])
    {
      GraftAt(fs, p, t, q);
      if Within(p, q) && q[|p|..] in t {
        assert q == p + q[|p|..];
        GraftedAncestor(fs, p, t, q[|p|..], k);
      } else {
        KeptAncestor(fs, p, t, q, k);
      }
    }
  }

  /** The entries below a directory, taken on their own, still have the shape of a filesystem. */
  lemma SubShaped(fs: Tree, s: Path)
    requires WellFormed(fs)
    ensures forall q, k :: q in Sub(fs, s) && 0 <= k < |q| ==> IsDirAt(Sub(fs, s), q[..k])
  {
    forall q, k | q in Sub(fs, s) && 0 <= k < |q|
      ensures IsDirAt(Sub(fs, s), q[..k])
    {
      SubAt(fs, s, q);
      assert (s + q)[..|s| + k] == s + q[..k];
      assert IsDirAt(fs, (s + q)[..|s| + k]);
      SubAt(fs, s, q[..k]);
    }
  }

  lemma CopyTreeWellFormed(fs: Tree, s: Path, d: Path)
    requires WellFormed(fs) && Disjoint(s, d) && Fits(fs, d, Sub(fs, s)) && CopyTree(fs, s, d).Ok?
    ensures WellFormed(CopyTree(fs, s, d).value)
  {
    var t := MakeDirs(fs, d).value;
    MakeDirsWellFormed(fs, d);
    var sub := Sub(fs, s);
    SubShaped(fs, s);
    SubAt(fs, s, []);
    assert s + [] == s;
    forall r | r in sub && d + r in t
      ensures sub[r].Dir? == t[d + r].Dir?
    {
      if d + r in Ancestors(d) {
        assert r == [];
      } else {
        SubAt(fs, s, r);
      }
    }
    GraftWellFormed(t, d, sub);
  }

  lemma UnpackWellFormed(fs: Tree, zip: Path, dst: Path, unpack: string -> Archive)
    requires WellFormed(fs) && DirChain(fs, dst) && dst != [] && EmptyBelow(fs, dst) && Unpacks(unpack)
    requires UnpackArchive(fs, zip, dst, unpack).Ok?
    ensures WellFormed(UnpackArchive(fs, zip, dst, unpack).value)
  {
    var t := unpack(ReadFile(fs, zip).value).tree;
    assert WellFormed(t);
    forall r | r in t
      ensures dst + r !in fs
    {
      assert Within(dst, dst + r);
    }
    GraftWellFormed(fs, dst, t);
  }

  /** Making one more level below an existing directory chain adds just that directory. */
  lemma MakeDirsOneLevel(fs: Tree, dst: Path, item: string)
    requires DirChain(fs, dst) && (dst + [item] in fs ==> fs[dst + [item]].Dir?)
    ensures MakeDirs(fs, dst + [item]).Ok?
    ensures forall q :: Lookup(MakeDirs(fs, dst + [item]).value, q) ==
                        if q == dst + [item] then Some(Dir) else Lookup(fs, q)
  {
    var d := dst + [item];
    forall k | 0 < k < |d|
      ensures !(d[..k] in fs && fs[d[..k]].File?)
    {
      assert d[..k] == dst[..k];
    }
    forall q
      ensures Lookup(MakeDirs(fs, d).value, q) == if q == d then Some(Dir) else Lookup(fs, q)
    {
      if q in Ancestors(d) && q != d {
        var k :| 0 < k <= |d| && q == d[..k];
        assert k < |d|;
        assert q == dst[..k];
      }
      if q == d {
        assert d[..|d|] == d;
      }
    }
  }

  lemma WriteFileWellFormed(fs: Tree, p: Path, c: string)
    requires WellFormed(fs) && WriteFile(fs, p, c).Ok?
    ensures WellFormed(WriteFile(fs, p, c).value)
  {
    var t := WriteFile(fs, p, c).value;
    forall q, k | q in t && 0 <= k < |q|
      ensures IsDirAt(t, q[..k])
    {
      if q == p {
        var par := Parent(p);
        if k < |p| - 1 && par != [] {
          assert q[..k] == par[..k];
          assert IsDirAt(fs, par[..k]);
        } else if k == |p| - 1 {
          assert q[..k] == par;
        }
        assert q[..k] != p;
      } else {
        assert IsDirAt(fs, q[..k]);
      }
    }
  }

  // ---------------------------------------------------------------------------
  // The disk

  /** The one mutable filesystem the service runs against. */
  class Disk {
    var nodes: Tree

    ghost predicate Valid()
      reads this
    {
      WellFormed(nodes)
    }

    constructor (initial: Tree)
      requires WellFormed(initial)
      ensures Valid() && nodes == initial
    {
      nodes := initial;
    }

    /** `os.path.exists(p)`. */
    function PathExists(p: Path): bool
      reads this
    {
      Exists(nodes, p)
    }

    /** `os.path.isdir(p)`. */
    function PathIsDir(p: Path): bool
      reads this
    {
      IsDirAt(nodes, p)
    }

    /** `shutil.rmtree(p)`. */
    method RemoveTree(p: Path) returns (err: Option<OsError>)
      requires Valid()
      modifies this
      ensures Valid()
      ensures err == RemoveTreeError(old(nodes), p)
      ensures nodes == if err.None? then Prune(old(nodes), p) else old(nodes)
    {
      err := RemoveTreeError(nodes, p);
      if err.None? {
        PruneWellFormed(nodes, p);
        nodes := Prune(nodes, p);
      }
    }

    /** `os.makedirs(p, exist_ok=True)`. */
    method MakeDirectories(p: Path) returns (err: Option<OsError>)
      requires Valid()
      modifies this
      ensures Valid()
      ensures MakeDirs(old(nodes), p).Err? ==> err == Some(MakeDirs(old(nodes), p).error) && nodes == old(nodes)
      ensures MakeDirs(old(nodes), p).Ok? ==> err.None? && nodes == MakeDirs(old(nodes), p).value
    {
      var r := MakeDirs(nodes, p);
      if r.Err? {
        err := Some(r.error);
      } else {
        MakeDirsWellFormed(nodes, p);
        err := None;
        nodes := r.value;
      }
    }

    /**
     * `open(p, 'r', encoding='utf-8').read()`: a file's text with its line
     * ends translated; a directory, a missing file or a file on the way
     * raises.
     */
    method ReadText(p: Path) returns (r: Result<string, OsError>)
      requires Valid()
      ensures p in nodes && nodes[p].File? ==> r == Ok(Universal(nodes[p].content))
      ensures p == [] || (p in nodes && nodes[p].Dir?) ==> r == Err(IsADirectory(p))
      ensures p != [] && p !in nodes && FileAbove(nodes, p) ==> r == Err(NotADirectory(p))
      ensures p != [] && p !in nodes && !FileAbove(nodes, p) ==> r == Err(NoSuchFile(p))
    {
      r := ReadTextFile(nodes, p);
    }

    /**
     * Launching `./<program>` with `subprocess.run(..., cwd=cwd)`: the
     * working directory must exist, and `program` in it must be a file
     * the caller may execute (`executable`, the mode bit the tree does
     * not record). What the program then does is not part of the model.
     */
    method Run(cwd: Path, program: string, executable: bool) returns (err: Option<OsError>)
      ensures !IsDirAt(nodes, cwd) && (cwd in nodes || FileAbove(nodes, cwd)) ==> err == Some(NotADirectory(cwd))
      ensures !IsDirAt(nodes, cwd) && cwd !in nodes && !FileAbove(nodes, cwd) ==> err == Some(NoSuchFile(cwd))
      ensures IsDirAt(nodes, cwd) && cwd + [program] !in nodes ==> err == Some(NoSuchFile(cwd + [program]))
      ensures IsDirAt(nodes, cwd) && cwd + [program] in nodes && (nodes[cwd + [program]].Dir? || !executable) ==>
        err == Some(PermissionDenied(cwd + [program]))
      ensures IsDirAt(nodes, cwd) && cwd + [program] in nodes && nodes[cwd + [program]].File? && executable ==> err.None?
    {
      err := LaunchError(nodes, cwd, program, executable);
    }

    /** `open(p, 'w').write(c)`. */
    method WriteText(p: Path, c: string) returns (err: Option<OsError>)
      requires Valid()
      modifies this
      ensures Valid()
      ensures WriteFile(old(nodes), p, c).Err? ==> err == Some(WriteFile(old(nodes), p, c).error) && nodes == old(nodes)
      ensures WriteFile(old(nodes), p, c).Ok? ==> err.None? && nodes == WriteFile(old(nodes), p, c).value
    {
      var r := WriteFile(nodes, p, c);
      if r.Err? {
        err := Some(r.error);
      } else {
        WriteFileWellFormed(nodes, p, c);
        err := None;
        nodes := r.value;
      }
    }

    /** `shutil.copytree(s, d, dirs_exist_ok=True)`, for a destination that fits the source. */
    method CopyDirectory(s: Path, d: Path) returns (err: Option<OsError>)
      requires Valid() && Disjoint(s, d) && Fits(nodes, d, Sub(nodes, s))
      modifies this
      ensures Valid()
      ensures CopyTree(old(nodes), s, d).Err? ==> err == Some(CopyTree(old(nodes), s, d).error) && nodes == old(nodes)
      ensures CopyTree(old(nodes), s, d).Ok? ==> err.None? && nodes == CopyTree(old(nodes), s, d).value
    {
      var r := CopyTree(nodes, s, d);
      if r.Err? {
        err := Some(r.error);
      } else {
        CopyTreeWellFormed(nodes, s, d);
        err := None;
        nodes := r.value;
      }
    }

    /** `shutil.unpack_archive(zip, dst)` into an empty directory. */
    method Extract(zip: Path, dst: Path, unpack: string -> Archive) returns (err: Option<ExtractError>)
      requires Valid() && DirChain(nodes, dst) && dst != [] && EmptyBelow(nodes, dst) && Unpacks(unpack)
      modifies this
      ensures Valid()
      ensures UnpackArchive(old(nodes), zip, dst, unpack).Err? ==>
        err == Some(UnpackArchive(old(nodes), zip, dst, unpack).error) && nodes == old(nodes)
      ensures UnpackArchive(old(nodes), zip, dst, unpack).Ok? ==>
        err.None? && nodes == UnpackArchive(old(nodes), zip, dst, unpack).value
    {
      var r := UnpackArchive(nodes, zip, dst, unpack);
      if r.Err? {
        err := Some(r.error);
      } else {
        UnpackWellFormed(nodes, zip, dst, unpack);
        err := None;
        nodes := r.value;
      }
    }

    /** `shutil.copy2(src, dst)`. */
    method Copy2(src: Path, dst: Path) returns (err: Option<OsError>)
      requires Valid()
      modifies this
      ensures Valid()
      ensures CopyFile(old(nodes), src, dst).Err? ==> err == Some(CopyFile(old(nodes), src, dst).error) && nodes == old(nodes)
      ensures CopyFile(old(nodes), src, dst).Ok? ==> err.None? && nodes == CopyFile(old(nodes), src, dst).value
    {
      var r := CopyFile(nodes, src, dst);
      if r.Err? {
        err := Some(r.error);
      } else {
        var c := ReadFile(nodes, src).value;
        var target := if IsDirAt(nodes, dst) && src != [] then dst + [src[|src| - 1]] else dst;
        WriteFileWellFormed(nodes, target, c);
        err := None;
        nodes := r.value;
      }
    }
  }
}
