/**
 * The build routine of the web2apk service: it stages the shared Android
 * template and a per-job temporary directory, extracts the uploaded
 * archive, overlays the extracted project onto the template, patches the
 * manifest and `build.gradle`, applies the icon, creates the job's build
 * directory, launches Gradle and announces the result.
 */
module Pipeline {
  import opened Wrappers
  import opened Text
  import opened FileSystem
  import opened Layout

  // ---------------------------------------------------------------------------
  // Project settings and the text substitutions

  /** A value of the settings dictionary: the key is missing, present as `None`, or a string. */
  datatype Entry = Absent | NoneValue | Str(s: string)

  /** The settings the build reads: `appName`, `packageName`, `version` and `icon_path`. */
  datatype Settings = Settings(appName: Entry, packageName: Entry, version: Entry, iconPath: Entry)

  /** What the build can raise: an `OSError`, an extraction error, or the `TypeError` of `str.replace(old, None)`. */
  datatype BuildError = Os(cause: OsError) | Extraction(failure: ExtractError) | ReplaceTypeError

  const PackagePlaceholder: string := "com.example.app"
  const NamePlaceholder: string := "APP_NAME"
  const VersionPlaceholder: string := "1.0.0"
  const DefaultName: string := "MyApp"

  /** `settings.get(key, default)`: the default applies only to a missing key; a present `None` stays `None`. */
  function Get(e: Entry, default: string): Option<string>
  {
    match e
    case Absent => Some(default)
    case NoneValue => None
    case Str(s) => Some(s)
  }

  /** `s.replace(p, v)` where `v` may be `None`, which raises. */
  function Replace(s: string, p: string, v: Option<string>): Result<string, BuildError>
    requires p != []
  {
    match v
    case None => Err(ReplaceTypeError)
    case Some(r) => Ok(ReplaceAll(s, p, r))
  }

  /** The manifest's two substitutions in their order: the package identifier first, then the app name. */
  function PatchManifestText(c: string, settings: Settings): Result<string, BuildError>
  {
    match Replace(c, PackagePlaceholder, Get(settings.packageName, PackagePlaceholder))
    case Err(e) => Err(e)
    case Ok(c1) => Replace(c1, NamePlaceholder, Get(settings.appName, DefaultName))
  }

  /** `build.gradle`'s one substitution, of the version. */
  function PatchGradleText(c: string, settings: Settings): Result<string, BuildError>
  {
    Replace(c, VersionPlaceholder, Get(settings.version, VersionPlaceholder))
  }

  /** Replacing a whole string that is exactly the pattern gives the replacement. */
  lemma ReplaceAllWhole(p: string, r: string)
    requires p != []
    ensures ReplaceAll(p, p, r) == r
  {
    assert p[..|p|] == p;
    assert ReplaceAll(p[|p|..], p, r) == [];
  }

  /**
   * The manifest's substitutions, against the reference `v.join(s.split(p))`:
   * first the package placeholder, then the name placeholder in that
   * result. They fail, with the `TypeError`, exactly when a value is a
   * present `None`.
   */
  lemma ManifestSubstitution(c: string, settings: Settings)
    ensures PatchManifestText(c, settings).Ok? <==> settings.packageName != NoneValue && settings.appName != NoneValue
    ensures PatchManifestText(c, settings).Err? ==> PatchManifestText(c, settings).error == ReplaceTypeError
    ensures PatchManifestText(c, settings).Ok? ==>
      var pkg := Get(settings.packageName, PackagePlaceholder).value;
      var name := Get(settings.appName, DefaultName).value;
      PatchManifestText(c, settings).value == Join(Split(Join(Split(c, PackagePlaceholder), pkg), NamePlaceholder), name)
  {
    var pkg := Get(settings.packageName, PackagePlaceholder);
    var name := Get(settings.appName, DefaultName);
    if pkg.Some? && name.Some? {
      ReplaceAllIsSplitJoin(c, PackagePlaceholder, pkg.value);
      ReplaceAllIsSplitJoin(ReplaceAll(c, PackagePlaceholder, pkg.value), NamePlaceholder, name.value);
    }
  }

  /**
   * The order of the substitutions shows: a manifest that is just the
   * package placeholder becomes the package name with its own `APP_NAME`s
   * replaced by the app name.
   */
  lemma PackageNameRenamedToo(settings: Settings, pkg: string, name: string)
    requires settings.packageName == Str(pkg) && settings.appName == Str(name)
    ensures PatchManifestText(PackagePlaceholder, settings) == Ok(ReplaceAll(pkg, NamePlaceholder, name))
  {
    ReplaceAllWhole(PackagePlaceholder, pkg);
  }

  /** With both keys missing the package placeholder stays and `APP_NAME` becomes `MyApp`. */
  lemma ManifestDefaults(c: string, settings: Settings)
    requires settings.packageName == Absent && settings.appName == Absent
    ensures PatchManifestText(c, settings) == Ok(ReplaceAll(c, NamePlaceholder, DefaultName))
  {
    ReplaceAllSelf(c, PackagePlaceholder);
  }

  /**
   * `build.gradle`'s substitution: every `1.0.0` becomes the version, it
   * fails exactly on a present `None`, and a missing key changes nothing.
   */
  lemma GradleSubstitution(c: string, settings: Settings)
    ensures PatchGradleText(c, settings).Ok? <==> settings.version != NoneValue
    ensures PatchGradleText(c, settings).Err? ==> PatchGradleText(c, settings).error == ReplaceTypeError
    ensures settings.version.Str? ==> PatchGradleText(c, settings) == Ok(Join(Split(c, VersionPlaceholder), settings.version.s))
    ensures settings.version.Absent? ==> PatchGradleText(c, settings) == Ok(c)
  {
    if settings.version.Str? {
      ReplaceAllIsSplitJoin(c, VersionPlaceholder, settings.version.s);
    }
    ReplaceAllSelf(c, VersionPlaceholder);
  }

  /**
   * A second build over a `build.gradle` the first one left without any
   * `1.0.0` leaves it as it is, whatever version the second build asks for.
   */
  lemma VersionKeptOnRebuild(c: string, first: Settings, second: Settings)
    requires PatchGradleText(c, first).Ok? && !Contains(PatchGradleText(c, first).value, VersionPlaceholder)
    requires second.version != NoneValue
    ensures PatchGradleText(PatchGradleText(c, first).value, second) == PatchGradleText(c, first)
  {
    var v := Get(second.version, VersionPlaceholder).value;
    ReplaceAllAbsent(PatchGradleText(c, first).value, VersionPlaceholder, v);
  }

  // ---------------------------------------------------------------------------
  // The merge of the extracted project into the template

  /**
   * The copy loop's effect: every entry below `src` is laid over the same
   * position below `dst`; files replace files, directories merge, and
   * entries of `dst` the source does not have stay.
   */
  function Merge(fs: Tree, src: Path, dst: Path): Tree
  {
    Graft(fs, dst, Sub(fs, src) - {[]})
  }

  /**
   * What the filesystem holds at `q` once the copy loop has handled the
   * top-level names in `done`: below `dst/name` the source's entry where
   * there is one, and the original contents everywhere else.
   */
  function MergedAt(fs0: Tree, src: Path, dst: Path, done: set<string>, q: Path): Option<Node>
  {
    if Within(dst, q) && |q| > |dst| && q[|dst|] in done && src + q[|dst|..] in fs0
    then Some(fs0[src + q[|dst|..]])
    else Lookup(fs0, q)
  }

  /** Paths below `s` never lie within `d` when the two are disjoint. */
  lemma DisjointBelow(s: Path, d: Path, r: Path)
    requires Disjoint(s, d)
    ensures !Within(d, s + r)
  {
  }

  /** Below a file of a well-formed filesystem there is nothing. */
  lemma NothingBelowFile(fs: Tree, p: Path, r: Path)
    requires WellFormed(fs) && p in fs && fs[p].File? && r != []
    ensures p + r !in fs
  {
    assert (p + r)[..|p|] == p;
  }

  /** Copying the file `src/item` to `dst/item` extends the merged part by `item`. */
  lemma FileStepAt(fs0: Tree, src: Path, dst: Path, done: set<string>, item: string, q: Path)
    requires WellFormed(fs0) && src + [item] in fs0 && fs0[src + [item]].File?
    ensures (if q == dst + [item] then Some(fs0[src + [item]]) else MergedAt(fs0, src, dst, done, q))
         == MergedAt(fs0, src, dst, done + {item}, q)
  {
    if q == dst + [item] {
      assert q[|dst|] == item && q[|dst|..] == [item];
    } else if Within(dst, q) && |q| > |dst| && q[|dst|] == item {
      var r := q[|dst|..];
      assert r == [item] + r[1..];
      assert r[1..] != [];
      NothingBelowFile(fs0, src + [item], r[1..]);
      assert src + r == src + [item] + r[1..];
    }
  }

  /** Copying the directory `src/item` over `dst/item` extends the merged part by `item`. */
  lemma DirStepAt(fs0: Tree, src: Path, dst: Path, done: set<string>, item: string, nodes: Tree, t: Tree, q: Path)
    requires Disjoint(src, dst) && src + [item] in fs0 && item !in done
    requires forall p :: Lookup(nodes, p) == MergedAt(fs0, src, dst, done, p)
    requires forall p :: Lookup(t, p) == if p == dst + [item] then Some(Dir) else Lookup(nodes, p)
    ensures Lookup(Graft(t, dst + [item], Sub(nodes, src + [item])), q) == MergedAt(fs0, src, dst, done + {item}, q)
  {
    var s := src + [item];
    var d := dst + [item];
    if Within(d, q) {
      var r := q[|d|..];
      assert q == d + r;
      GraftInside(t, d, Sub(nodes, s), r);
      LookupSub(nodes, s, r);
      DisjointBelow(src, dst, [item] + r);
      assert s + r == src + ([item] + r);
      assert Lookup(nodes, s + r) == Lookup(fs0, s + r);
      assert q[|dst|] == item && q[|dst|..] == [item] + r;
      if r == [] {
        assert s + r == s;
      }
    } else {
      GraftOutside(t, d, Sub(nodes, s), q);
    }
  }

  /** When every top-level name is done, the merged view is `Merge`. */
  lemma MergedAll(fs0: Tree, src: Path, dst: Path, q: Path)
    requires WellFormed(fs0)
    ensures Lookup(Merge(fs0, src, dst), q) == MergedAt(fs0, src, dst, Children(fs0, src), q)
  {
    if Within(dst, q) {
      var r := q[|dst|..];
      assert q == dst + r;
      GraftInside(fs0, dst, Sub(fs0, src) - {[]}, r);
      LookupSub(fs0, src, r);
      if r != [] && src + r in fs0 {
        var c := src + [r[0]];
        assert (src + r)[..|src| + 1] == c;
        if |r| == 1 {
          assert c == src + r;
        } else {
          assert IsDirAt(fs0, (src + r)[..|src| + 1]);
        }
        assert c in fs0 && |c| == |src| + 1 && Within(src, c) && c[|src|] == r[0];
      }
    } else {
      GraftOutside(fs0, dst, Sub(fs0, src) - {[]}, q);
    }
  }

  /**
   * What the merge leaves below `dst`: at each position the source has
   * an entry, that entry; elsewhere what `dst` already held. Nothing
   * outside `dst` changes.
   */
  lemma MergeSpec(fs: Tree, src: Path, dst: Path)
    ensures forall r :: r != [] && src + r in fs ==> Lookup(Merge(fs, src, dst), dst + r) == Some(fs[src + r])
    ensures forall r :: (r == [] || src + r !in fs) ==> Lookup(Merge(fs, src, dst), dst + r) == Lookup(fs, dst + r)
    ensures forall q :: !Within(dst, q) ==> Lookup(Merge(fs, src, dst), q) == Lookup(fs, q)
  {
    forall r
      ensures Lookup(Merge(fs, src, dst), dst + r) ==
        if r != [] && src + r in fs then Some(fs[src + r]) else Lookup(fs, dst + r)
    {
      GraftInside(fs, dst, Sub(fs, src) - {[]}, r);
      LookupSub(fs, src, r);
    }
    forall q | !Within(dst, q)
      ensures Lookup(Merge(fs, src, dst), q) == Lookup(fs, q)
    {
      GraftOutside(fs, dst, Sub(fs, src) - {[]}, q);
    }
  }

  /** The merge keeps a filesystem well formed when `dst` is a directory chain whose entries fit the source's. */
  lemma MergeWellFormed(fs: Tree, src: Path, dst: Path)
    requires WellFormed(fs) && DirChain(fs, dst) && dst != [] && Fits(fs, dst, Sub(fs, src) - {[]})
    ensures WellFormed(Merge(fs, src, dst))
  {
    var t := Sub(fs, src) - {[]};
    SubShaped(fs, src);
    forall q, k | q in t && 0 <= k < |q|
      ensures IsDirAt(t, q[..k])
    {
      assert IsDirAt(Sub(fs, src), q[..k]);
    }
    GraftWellFormed(fs, dst, t);
  }

  /** Nothing below an empty directory can clash with a tree laid over it. */
  lemma EmptyFits(fs: Tree, p: Path, t: Tree)
    requires EmptyBelow(fs, p) && [] !in t
    ensures Fits(fs, p, t)
  {
    forall r | r in t
      ensures p + r !in fs
    {
      assert Within(p, p + r) && r != [];
    }
  }

  /** At the start of a step, the step's source, target and the chain to `dst` are as they were originally. */
  lemma StepUntouched(fs0: Tree, src: Path, dst: Path, done: set<string>, item: string, nodes: Tree)
    requires Disjoint(src, dst) && item !in done
    requires forall p :: Lookup(nodes, p) == MergedAt(fs0, src, dst, done, p)
    ensures Lookup(nodes, src + [item]) == Lookup(fs0, src + [item])
    ensures Lookup(nodes, dst + [item]) == Lookup(fs0, dst + [item])
    ensures DirChain(fs0, dst) ==> DirChain(nodes, dst)
  {
    assert Lookup(nodes, src + [item]) == MergedAt(fs0, src, dst, done, src + [item]);
    DisjointBelow(src, dst, [item]);
    assert Lookup(nodes, dst + [item]) == MergedAt(fs0, src, dst, done, dst + [item]);
    assert (dst + [item])[|dst|] == item;
    forall k | 0 <= k <= |dst|
      ensures Lookup(nodes, dst[..k]) == Lookup(fs0, dst[..k])
    {
      assert Lookup(nodes, dst[..k]) == MergedAt(fs0, src, dst, done, dst[..k]);
    }
  }

  lemma StepFitsAt(fs0: Tree, src: Path, dst: Path, done: set<string>, item: string, nodes: Tree, r: Path)
    requires Disjoint(src, dst) && item !in done && Fits(fs0, dst, Sub(fs0, src) - {[]})
    requires forall p :: Lookup(nodes, p) == MergedAt(fs0, src, dst, done, p)
    requires r in Sub(nodes, src + [item]) && dst + [item] + r in nodes
    ensures Sub(nodes, src + [item])[r].Dir? == nodes[dst + [item] + r].Dir?
  {
    var s := src + [item];
    var d := dst + [item];
    LookupSub(nodes, s, r);
    DisjointBelow(src, dst, [item] + r);
    assert s + r == src + ([item] + r);
    assert Lookup(nodes, s + r) == MergedAt(fs0, src, dst, done, s + r);
    assert Lookup(nodes, d + r) == MergedAt(fs0, src, dst, done, d + r);
    assert (d + r)[|dst|] == item;
    LookupSub(fs0, src, [item] + r);
    assert d + r == dst + ([item] + r);
  }

  /** The directory about to be copied fits its target, because the target has not been touched yet. */
  lemma StepFits(fs0: Tree, src: Path, dst: Path, done: set<string>, item: string, nodes: Tree)
    requires Disjoint(src, dst) && item !in done && Fits(fs0, dst, Sub(fs0, src) - {[]})
    requires forall p :: Lookup(nodes, p) == MergedAt(fs0, src, dst, done, p)
    ensures Fits(nodes, dst + [item], Sub(nodes, src + [item]))
  {
    forall r | r in Sub(nodes, src + [item]) && dst + [item] + r in nodes
      ensures Sub(nodes, src + [item])[r].Dir? == nodes[dst + [item] + r].Dir?
    {
      StepFitsAt(fs0, src, dst, done, item, nodes, r);
    }
  }

  /** A file entry: `copy2` writes the source's file at the same name under `dst`. */
  lemma FileCopied(fs0: Tree, src: Path, dst: Path, item: string, nodes: Tree)
    requires src + [item] in fs0 && fs0[src + [item]].File? && Disjoint(src, dst)
    requires Fits(fs0, dst, Sub(fs0, src) - {[]}) && DirChain(nodes, dst)
    requires Lookup(nodes, src + [item]) == Lookup(fs0, src + [item])
    requires Lookup(nodes, dst + [item]) == Lookup(fs0, dst + [item])
    ensures CopyFile(nodes, src + [item], dst + [item]) == Ok(nodes[dst + [item] := fs0[src + [item]]])
  {
    var d := dst + [item];
    SubAt(fs0, src, [item]);
    assert Parent(d) == dst;
    assert dst[..|dst|] == dst;
  }

  /** A directory entry: `copytree` lays the source's directory over the same name under `dst`. */
  lemma DirCopied(fs0: Tree, src: Path, dst: Path, item: string, nodes: Tree)
    requires src + [item] in fs0 && fs0[src + [item]].Dir? && Disjoint(src, dst)
    requires Fits(fs0, dst, Sub(fs0, src) - {[]}) && DirChain(nodes, dst)
    requires Lookup(nodes, src + [item]) == Lookup(fs0, src + [item])
    requires Lookup(nodes, dst + [item]) == Lookup(fs0, dst + [item])
    ensures MakeDirs(nodes, dst + [item]).Ok?
    ensures forall q :: Lookup(MakeDirs(nodes, dst + [item]).value, q) ==
                        if q == dst + [item] then Some(Dir) else Lookup(nodes, q)
    ensures CopyTree(nodes, src + [item], dst + [item])
         == Ok(Graft(MakeDirs(nodes, dst + [item]).value, dst + [item], Sub(nodes, src + [item])))
  {
    SubAt(fs0, src, [item]);
    MakeDirsOneLevel(nodes, dst, item);
  }

  /** One turn of the copy loop. */
  method CopyItem(disk: Disk, src: Path, dst: Path, item: string, ghost fs0: Tree, ghost done: set<string>)
    requires disk.Valid() && WellFormed(fs0) && Disjoint(src, dst) && DirChain(fs0, dst)
    requires Fits(fs0, dst, Sub(fs0, src) - {[]})
    requires item in Children(fs0, src) && item !in done
    requires forall q :: Lookup(disk.nodes, q) == MergedAt(fs0, src, dst, done, q)
    modifies disk
    ensures disk.Valid()
    ensures forall q :: Lookup(disk.nodes, q) == MergedAt(fs0, src, dst, done + {item}, q)
  {
    ChildEntry(fs0, src, item);
    StepUntouched(fs0, src, dst, done, item, disk.nodes);
    if disk.PathIsDir(src + [item]) {
      CopyDirItem(disk, src, dst, item, fs0, done);
    } else {
      CopyFileItem(disk, src, dst, item, fs0, done);
    }
  }

  /** Copying the directory entry `item` is possible and extends the merged part by `item`. */
  lemma DirItemStep(fs0: Tree, src: Path, dst: Path, item: string, done: set<string>, nodes: Tree)
    requires Disjoint(src, dst) && DirChain(nodes, dst)
    requires Fits(fs0, dst, Sub(fs0, src) - {[]})
    requires src + [item] in fs0 && fs0[src + [item]].Dir? && item !in done
    requires forall q :: Lookup(nodes, q) == MergedAt(fs0, src, dst, done, q)
    requires Lookup(nodes, src + [item]) == Lookup(fs0, src + [item])
    requires Lookup(nodes, dst + [item]) == Lookup(fs0, dst + [item])
    ensures Disjoint(src + [item], dst + [item])
    ensures Fits(nodes, dst + [item], Sub(nodes, src + [item]))
    ensures CopyTree(nodes, src + [item], dst + [item]).Ok?
    ensures forall q :: Lookup(CopyTree(nodes, src + [item], dst + [item]).value, q) == MergedAt(fs0, src, dst, done + {item}, q)
  {
    var d := dst + [item];
    StepFits(fs0, src, dst, done, item, nodes);
    DirCopied(fs0, src, dst, item, nodes);
    var t := MakeDirs(nodes, d).value;
    forall q
      ensures Lookup(Graft(t, d, Sub(nodes, src + [item])), q) == MergedAt(fs0, src, dst, done + {item}, q)
    {
      DirStepAt(fs0, src, dst, done, item, nodes, t, q);
    }
  }

  method CopyDirItem(disk: Disk, src: Path, dst: Path, item: string, ghost fs0: Tree, ghost done: set<string>)
    requires disk.Valid() && Disjoint(src, dst) && DirChain(disk.nodes, dst)
    requires Fits(fs0, dst, Sub(fs0, src) - {[]})
    requires src + [item] in fs0 && fs0[src + [item]].Dir? && item !in done
    requires forall q :: Lookup(disk.nodes, q) == MergedAt(fs0, src, dst, done, q)
    requires Lookup(disk.nodes, src + [item]) == Lookup(fs0, src + [item])
    requires Lookup(disk.nodes, dst + [item]) == Lookup(fs0, dst + [item])
    modifies disk
    ensures disk.Valid()
    ensures forall q :: Lookup(disk.nodes, q) == MergedAt(fs0, src, dst, done + {item}, q)
  {
    DirItemStep(fs0, src, dst, item, done, disk.nodes);
    var err := disk.CopyDirectory(src + [item], dst + [item]);
  }

  method CopyFileItem(disk: Disk, src: Path, dst: Path, item: string, ghost fs0: Tree, ghost done: set<string>)
    requires disk.Valid() && WellFormed(fs0) && Disjoint(src, dst) && DirChain(disk.nodes, dst)
    requires Fits(fs0, dst, Sub(fs0, src) - {[]})
    requires src + [item] in fs0 && fs0[src + [item]].File?
    requires forall q :: Lookup(disk.nodes, q) == MergedAt(fs0, src, dst, done, q)
    requires Lookup(disk.nodes, src + [item]) == Lookup(fs0, src + [item])
    requires Lookup(disk.nodes, dst + [item]) == Lookup(fs0, dst + [item])
    modifies disk
    ensures disk.Valid()
    ensures forall q :: Lookup(disk.nodes, q) == MergedAt(fs0, src, dst, done + {item}, q)
  {
    ghost var nodes := disk.nodes;
    FileCopied(fs0, src, dst, item, nodes);
    var err := disk.Copy2(src + [item], dst + [item]);
    forall q
      ensures Lookup(disk.nodes, q) == MergedAt(fs0, src, dst, done + {item}, q)
    {
      FileStepAt(fs0, src, dst, done, item, q);
    }
  }

  /**
   * The copy loop of the build routine: each top-level entry of `src` goes
   * to the same name under `dst`, a directory through
   * `shutil.copytree(s, d, dirs_exist_ok=True)` and a file through
   * `shutil.copy2(s, d)`, in whatever order `os.listdir` yields the names.
   */
  method CopyEntries(disk: Disk, src: Path, dst: Path)
    requires disk.Valid() && Disjoint(src, dst) && DirChain(disk.nodes, dst)
    requires Fits(disk.nodes, dst, Sub(disk.nodes, src) - {[]})
    modifies disk
    ensures disk.Valid()
    ensures disk.nodes == Merge(old(disk.nodes), src, dst)
  {
    ghost var fs0 := disk.nodes;
    var pending := Children(disk.nodes, src);
    ghost var done: set<string> := {};
    while pending != {}
      invariant disk.Valid()
      invariant pending !! done && pending + done == Children(fs0, src)
      invariant forall q :: Lookup(disk.nodes, q) == MergedAt(fs0, src, dst, done, q)
      decreases |pending|
    {
      var item :| item in pending;
      CopyItem(disk, src, dst, item, fs0, done);
      pending := pending - {item};
      done := done + {item};
    }
    forall q
      ensures Lookup(disk.nodes, q) == Lookup(Merge(fs0, src, dst), q)
    {
      MergedAll(fs0, src, dst, q);
    }
    SameLookup(disk.nodes, Merge(fs0, src, dst));
  }

  // ---------------------------------------------------------------------------
  // The steps of the build routine, as functions of the filesystem

  /** The filesystem after a prefix of the routine, and the exception that stopped it there, if one did. */
  datatype Step = Step(fs: Tree, error: Option<BuildError>)

  /** A filesystem call that either raises, leaving `fs` as it was, or succeeds with a new filesystem. */
  function OsStep(fs: Tree, r: Result<Tree, OsError>): Step
  {
    match r
    case Err(e) => Step(fs, Some(Os(e)))
    case Ok(t) => Step(t, None)
  }

  /** Some component on the way to `p`, `p` included, is a file. */
  predicate FileOnWay(fs: Tree, p: Path)
  {
    exists k :: 0 < k <= |p| && p[..k] in fs && fs[p[..k]].File?
  }

  /** `if os.path.exists(p): shutil.rmtree(p)` followed by `os.makedirs(p, exist_ok=True)`. */
  function Reset(fs: Tree, p: Path): Step
  {
    if Exists(fs, p) && RemoveTreeError(fs, p).Some? then Step(fs, Some(Os(RemoveTreeError(fs, p).value)))
    else OsStep(if Exists(fs, p) then Prune(fs, p) else fs, MakeDirs(if Exists(fs, p) then Prune(fs, p) else fs, p))
  }

  /** `shutil.unpack_archive(zip, dst)`. */
  function Unpack(fs: Tree, zip: Path, dst: Path, unpack: string -> Archive): Step
  {
    match UnpackArchive(fs, zip, dst, unpack)
    case Err(e) => Step(fs, Some(Extraction(e)))
    case Ok(t) => Step(t, None)
  }

  /** The two files the routine patches. */
  datatype Target = Manifest | Gradle

  function TargetPath(target: Target): Path
  {
    match target
    case Manifest => ManifestPath
    case Gradle => GradlePath
  }

  function PatchText(target: Target, c: string, settings: Settings): Result<string, BuildError>
  {
    match target
    case Manifest => PatchManifestText(c, settings)
    case Gradle => PatchGradleText(c, settings)
  }

  /** `if os.path.exists(path)`: read the file as text, substitute, write it back. */
  function PatchFile(fs: Tree, target: Target, settings: Settings): Step
  {
    var p := TargetPath(target);
    if !Exists(fs, p) then Step(fs, None)
    else
      match ReadTextFile(fs, p)
      case Err(e) => Step(fs, Some(Os(e)))
      case Ok(c) =>
        match PatchText(target, c, settings)
        case Err(e) => Step(fs, Some(e))
        case Ok(patched) => OsStep(fs, WriteFile(fs, p, patched))
  }

  /** The file `settings['icon_path']` names, when the setting is a non-empty string. */
  function IconSource(settings: Settings): Option<Path>
  {
    match settings.iconPath
    case Str(s) => if s != "" then Some(JoinPath([], s)) else None
    case _ => None
  }

  /** `shutil.copy2(icon, icon_path)` when the icon setting is truthy and names something that exists. */
  function ApplyIcon(fs: Tree, settings: Settings): Step
  {
    var src := IconSource(settings);
    if src.None? || !Exists(fs, src.value) then Step(fs, None)
    else OsStep(fs, CopyFile(fs, src.value, IconPath))
  }

  // ---------------------------------------------------------------------------
  // The routine as a whole

  /** Both directories reset: the template, then `tmp/<id>`. */
  function Staged(fs: Tree, id: string): Step
  {
    var a := Reset(fs, TemplateDir);
    if a.error.Some? then a else Reset(a.fs, TempDir(id))
  }

  function Extracted(fs: Tree, id: string, zip: Path, unpack: string -> Archive): Step
  {
    var a := Staged(fs, id);
    if a.error.Some? then a else Unpack(a.fs, zip, TempDir(id), unpack)
  }

  function Merged(fs: Tree, id: string, zip: Path, unpack: string -> Archive): Step
  {
    var a := Extracted(fs, id, zip, unpack);
    if a.error.Some? then a else Step(Merge(a.fs, TempDir(id), TemplateDir), None)
  }

  /** The steps after the merge, on the merged filesystem `m`: both patches, the icon, and `os.makedirs(build_dir, exist_ok=True)`. */
  function Finish(m: Tree, settings: Settings, id: string): Step
  {
    var a := PatchFile(m, Manifest, settings);
    if a.error.Some? then a else
    var b := PatchFile(a.fs, Gradle, settings);
    if b.error.Some? then b else
    var c := ApplyIcon(b.fs, settings);
    if c.error.Some? then c else OsStep(c.fs, MakeDirs(c.fs, BuildDir(id)))
  }

  /** Every filesystem step of the routine. */
  function Finished(fs: Tree, settings: Settings, id: string, zip: Path, unpack: string -> Archive): Step
  {
    var a := Merged(fs, id, zip, unpack);
    if a.error.Some? then a else Finish(a.fs, settings, id)
  }

  /** `project_id`, or the fresh id when the caller passed `None`. */
  function JobId(projectId: Option<string>, freshId: string): string
  {
    if projectId.None? then freshId else projectId.value
  }

  /** The filesystem a call of the routine leaves behind, and what it returns or raises. */
  datatype Outcome = Outcome(fs: Tree, result: Result<string, BuildError>)

  /**
   * `subprocess.run(['./gradlew', 'assembleDebug'], cwd=..., check=False)`:
   * only an exception from launching the launcher matters, since
   * `check=False` leaves the exit status unexamined.
   */
  function Launch(fs: Tree, executable: bool): Option<BuildError>
  {
    match LaunchError(fs, GradleCwd, Gradlew, executable)
    case Some(e) => Some(Os(e))
    case None => None
  }

  /** The routine; `executable` is whether the launcher may be executed. */
  function Build(fs: Tree, settings: Settings, projectId: Option<string>, freshId: string, zip: Path, unpack: string -> Archive,
                 executable: bool): Outcome
  {
    var id := JobId(projectId, freshId);
    var a := Finished(fs, settings, id, zip, unpack);
    var raised := if a.error.Some? then a.error else Launch(a.fs, executable);
    Outcome(a.fs, if raised.Some? then Err(raised.value) else Ok(id))
  }

  /**
   * The routine returns exactly when no filesystem step raised and the
   * launcher could be launched, and then returns the caller's id when one
   * was passed and the fresh one otherwise; a fresh id is not used at all
   * when the caller passed one.
   */
  lemma BuildReturnsId(fs: Tree, settings: Settings, projectId: Option<string>, freshId: string, otherId: string,
                       zip: Path, unpack: string -> Archive, executable: bool)
    ensures var a := Finished(fs, settings, JobId(projectId, freshId), zip, unpack);
      Build(fs, settings, projectId, freshId, zip, unpack, executable).result.Ok? <==>
        a.error.None? && LaunchError(a.fs, GradleCwd, Gradlew, executable).None?
    ensures Build(fs, settings, projectId, freshId, zip, unpack, executable).result.Ok? ==>
      Build(fs, settings, projectId, freshId, zip, unpack, executable).result.value == if projectId.Some? then projectId.value else freshId
    ensures projectId.Some? ==>
      Build(fs, settings, projectId, freshId, zip, unpack, executable) == Build(fs, settings, projectId, otherId, zip, unpack, executable)
  {
  }

  // ---------------------------------------------------------------------------
  // Staging

  /** When a file lies on the way to `p`, resetting `p` raises and leaves the filesystem as it was. */
  lemma ResetBlocked(fs: Tree, p: Path)
    requires WellFormed(fs) && p != [] && FileOnWay(fs, p)
    ensures Reset(fs, p).error.Some? && Reset(fs, p).fs == fs
  {
    var k :| 0 < k <= |p| && p[..k] in fs && fs[p[..k]].File?;
    if k == |p| {
      assert p[..k] == p;
    } else {
      var pre := p[..k];
      assert p in fs ==> IsDirAt(fs, pre);
    }
  }

  /**
   * Otherwise the reset succeeds: `p` is an empty directory, the
   * directories on the way to it exist, and away from `p` nothing changes
   * except that those directories are created.
   */
  lemma ResetClear(fs: Tree, p: Path)
    requires WellFormed(fs) && p != [] && !FileOnWay(fs, p)
    ensures Reset(fs, p).error.None?
    ensures WellFormed(Reset(fs, p).fs) && DirChain(Reset(fs, p).fs, p) && EmptyBelow(Reset(fs, p).fs, p)
    ensures forall q :: !Within(p, q) ==>
      Lookup(Reset(fs, p).fs, q) == if q in Ancestors(p) then Some(Dir) else Lookup(fs, q)
  {
    var cleared := if Exists(fs, p) then Prune(fs, p) else fs;
    assert p[..|p|] == p;
    PruneWellFormed(fs, p);
    assert MakeDirs(cleared, p).Ok?;
    MakeDirsWellFormed(cleared, p);
    var t := MakeDirs(cleared, p).value;
    forall q | q in t && Within(p, q)
      ensures q == p
    {
      assert q in cleared ==> q in fs && !Exists(fs, p);
      assert q[..|p|] == p;
      assert q in fs && q != p ==> IsDirAt(fs, p);
    }
  }

  /** A path whose first component differs from that of `p` lies neither within `p` nor on the way to it. */
  lemma OtherTop(p: Path, q: Path)
    requires p != [] && q != [] && q[0] != p[0]
    ensures !Within(p, q) && q !in Ancestors(p)
  {
    forall k | 0 < k <= |p|
      ensures q != p[..k]
    {
      assert p[..k][0] == p[0];
    }
  }

  /** Two filesystems that agree on every component of `p` agree on whether a file lies on the way to it. */
  lemma FileOnWaySame(a: Tree, b: Tree, p: Path)
    requires forall k :: 0 < k <= |p| ==> Lookup(a, p[..k]) == Lookup(b, p[..k])
    ensures FileOnWay(a, p) <==> FileOnWay(b, p)
  {
    if FileOnWay(a, p) {
      var k :| 0 < k <= |p| && p[..k] in a && a[p[..k]].File?;
      assert Lookup(a, p[..k]) == Lookup(b, p[..k]);
    }
    if FileOnWay(b, p) {
      var k :| 0 < k <= |p| && p[..k] in b && b[p[..k]].File?;
      assert Lookup(a, p[..k]) == Lookup(b, p[..k]);
    }
  }

  /** Resetting the template leaves everything on the way to `tmp/<id>` as it was. */
  lemma TemplateResetKeepsTemp(fs: Tree, id: string)
    requires WellFormed(fs) && PlainName(id) && !FileOnWay(fs, TemplateDir)
    ensures FileOnWay(Reset(fs, TemplateDir).fs, TempDir(id)) <==> FileOnWay(fs, TempDir(id))
  {
    JobDirs(id);
    ResetClear(fs, TemplateDir);
    var tmp := TempDir(id);
    forall k | 0 < k <= |tmp|
      ensures Lookup(Reset(fs, TemplateDir).fs, tmp[..k]) == Lookup(fs, tmp[..k])
    {
      OtherTop(TemplateDir, tmp[..k]);
    }
    FileOnWaySame(Reset(fs, TemplateDir).fs, fs, tmp);
  }

  /**
   * Staging succeeds exactly when no file lies on the way to the template
   * or to `tmp/<id>`; it then leaves both as empty directories, whatever
   * they held before, creates the directories on the way to them, and
   * changes nothing else.
   */
  lemma StagedOutcome(fs: Tree, id: string)
    requires WellFormed(fs) && PlainName(id)
    ensures Staged(fs, id).error.None? <==> !FileOnWay(fs, TemplateDir) && !FileOnWay(fs, TempDir(id))
    ensures Staged(fs, id).error.None? ==>
      var t := Staged(fs, id).fs;
      && WellFormed(t)
      && DirChain(t, TemplateDir) && EmptyBelow(t, TemplateDir)
      && DirChain(t, TempDir(id)) && EmptyBelow(t, TempDir(id))
      && forall q :: !Within(TemplateDir, q) && !Within(TempDir(id), q) ==>
           Lookup(t, q) == if q in Ancestors(TemplateDir) || q in Ancestors(TempDir(id)) then Some(Dir) else Lookup(fs, q)
  {
    JobDirs(id);
    var tmp := TempDir(id);
    if FileOnWay(fs, TemplateDir) {
      ResetBlocked(fs, TemplateDir);
    } else {
      ResetClear(fs, TemplateDir);
      TemplateResetKeepsTemp(fs, id);
      var a := Reset(fs, TemplateDir).fs;
      if FileOnWay(fs, tmp) {
        ResetBlocked(a, tmp);
      } else {
        ResetClear(a, tmp);
        var b := Reset(a, tmp).fs;
        forall k | 0 < k <= |TemplateDir|
          ensures Lookup(b, TemplateDir[..k]) == Lookup(a, TemplateDir[..k])
        {
          OtherTop(tmp, TemplateDir[..k]);
        }
        assert DirChain(b, TemplateDir) by {
          forall k | 0 <= k <= |TemplateDir|
            ensures IsDirAt(b, TemplateDir[..k])
          {
            if k > 0 {
              assert IsDirAt(a, TemplateDir[..k]);
            }
          }
        }
        forall q | q in b && Within(TemplateDir, q)
          ensures q == TemplateDir
        {
          assert q[..|TemplateDir|][0] == q[0];
          OtherTop(tmp, q);
          assert Lookup(b, q) == Lookup(a, q);
        }
      }
    }
  }

  // ---------------------------------------------------------------------------
  // Extraction and merge

  /** The tree the archive at `zip` unpacks to, when it can be read. */
  function ArchiveTree(fs: Tree, zip: Path, unpack: string -> Archive): Option<Tree>
  {
    match ReadFile(fs, zip)
    case Err(_) => None
    case Ok(bytes) =>
      match unpack(bytes)
      case Unreadable(_) => None
      case Unpacked(t) => Some(t)
  }

  /** The template, what lies below it and the directories on the way to it all start with `engine`. */
  lemma EngineTop(q: Path)
    requires Within(TemplateDir, q) || q in Ancestors(TemplateDir)
    ensures q != [] && q[0] == TemplateDir[0]
  {
    if Within(TemplateDir, q) {
      assert q[..|TemplateDir|][0] == q[0];
    } else {
      var k :| 0 < k <= |TemplateDir| && q == TemplateDir[..k];
    }
  }

  /** `a` and `b` agree on the template, below it and on the way to it. */
  ghost predicate SameTemplate(a: Tree, b: Tree)
  {
    forall q :: Within(TemplateDir, q) || q in Ancestors(TemplateDir) ==> Lookup(a, q) == Lookup(b, q)
  }

  /** An empty template directory stays one in a filesystem that agrees on the template. */
  lemma TemplateKept(a: Tree, b: Tree)
    requires SameTemplate(a, b) && DirChain(a, TemplateDir) && EmptyBelow(a, TemplateDir)
    ensures DirChain(b, TemplateDir) && EmptyBelow(b, TemplateDir)
  {
    forall k | 0 <= k <= |TemplateDir|
      ensures IsDirAt(b, TemplateDir[..k])
    {
      if k > 0 {
        assert TemplateDir[..k] in Ancestors(TemplateDir);
        assert IsDirAt(a, TemplateDir[..k]);
      }
    }
    forall q | q in b && Within(TemplateDir, q)
      ensures q == TemplateDir
    {
      assert Lookup(a, q) == Lookup(b, q);
    }
  }

  /** Changes confined to `tmp/<id>` leave the template alone. */
  lemma TempApart(a: Tree, b: Tree, id: string)
    requires PlainName(id)
    requires forall q :: !Within(TempDir(id), q) ==> Lookup(a, q) == Lookup(b, q)
    ensures SameTemplate(a, b)
  {
    JobDirs(id);
    forall q | Within(TemplateDir, q) || q in Ancestors(TemplateDir)
      ensures Lookup(a, q) == Lookup(b, q)
    {
      EngineTop(q);
      OtherTop(TempDir(id), q);
    }
  }

  /**
   * Extraction succeeds exactly when the archive can be read; then
   * `tmp/<id>` holds exactly the archive's tree and nothing outside it
   * changes.
   */
  lemma ExtractedOutcome(fs: Tree, id: string, zip: Path, unpack: string -> Archive)
    requires WellFormed(fs) && PlainName(id) && Unpacks(unpack) && Staged(fs, id).error.None?
    ensures Extracted(fs, id, zip, unpack).error.None? <==> ArchiveTree(Staged(fs, id).fs, zip, unpack).Some?
    ensures Extracted(fs, id, zip, unpack).error.None? ==>
      var t := Extracted(fs, id, zip, unpack).fs;
      var tree := ArchiveTree(Staged(fs, id).fs, zip, unpack).value;
      && WellFormed(t) && DirChain(t, TemplateDir) && EmptyBelow(t, TemplateDir)
      && (forall r :: r != [] ==> Lookup(t, TempDir(id) + r) == Lookup(tree, r))
      && forall q :: !Within(TempDir(id), q) ==> Lookup(t, q) == Lookup(Staged(fs, id).fs, q)
  {
    StagedOutcome(fs, id);
    var a := Staged(fs, id).fs;
    var tmp := TempDir(id);
    if ArchiveTree(a, zip, unpack).Some? {
      var tree := ArchiveTree(a, zip, unpack).value;
      UnpackWellFormed(a, zip, tmp, unpack);
      var t := Graft(a, tmp, tree);
      forall r | r != []
        ensures Lookup(t, tmp + r) == Lookup(tree, r)
      {
        GraftInside(a, tmp, tree, r);
        assert Within(tmp, tmp + r);
      }
      forall q | !Within(tmp, q)
        ensures Lookup(t, q) == Lookup(a, q)
      {
        GraftOutside(a, tmp, tree, q);
      }
      TempApart(a, t, id);
      TemplateKept(a, t);
    }
  }

  /**
   * After the merge the template holds exactly the uploaded project: at
   * every position below it, what the archive's tree has there. Nothing
   * outside the template changes.
   */
  lemma MergedOutcome(fs: Tree, id: string, zip: Path, unpack: string -> Archive)
    requires WellFormed(fs) && PlainName(id) && Unpacks(unpack) && Extracted(fs, id, zip, unpack).error.None?
    ensures Staged(fs, id).error.None? && ArchiveTree(Staged(fs, id).fs, zip, unpack).Some?
    ensures Merged(fs, id, zip, unpack).error.None?
    ensures
      var t := Merged(fs, id, zip, unpack).fs;
      var tree := ArchiveTree(Staged(fs, id).fs, zip, unpack).value;
      && WellFormed(t) && DirChain(t, TemplateDir)
      && (forall r :: r != [] ==> Lookup(t, TemplateDir + r) == Lookup(tree, r))
      && forall q :: !Within(TemplateDir, q) ==> Lookup(t, q) == Lookup(Extracted(fs, id, zip, unpack).fs, q)
  {
    JobDirs(id);
    ExtractedOutcome(fs, id, zip, unpack);
    var e := Extracted(fs, id, zip, unpack).fs;
    var tmp := TempDir(id);
    var tree := ArchiveTree(Staged(fs, id).fs, zip, unpack).value;
    MergeSpec(e, tmp, TemplateDir);
    var t := Merge(e, tmp, TemplateDir);
    EmptyFits(e, TemplateDir, Sub(e, tmp) - {[]});
    MergeWellFormed(e, tmp, TemplateDir);
    forall r | r != []
      ensures Lookup(t, TemplateDir + r) == Lookup(tree, r)
    {
      assert Within(TemplateDir, TemplateDir + r);
      assert Lookup(e, tmp + r) == Lookup(tree, r);
    }
    forall k | 0 <= k <= |TemplateDir|
      ensures IsDirAt(t, TemplateDir[..k])
    {
      assert IsDirAt(e, TemplateDir[..k]);
    }
  }

  // ---------------------------------------------------------------------------
  // Patching, the icon and the build directory

  /**
   * Patching a file: a missing file is skipped without error; an existing
   * file is rewritten with its text as text mode reads it (line ends
   * translated, `Universal`) and then substituted, unless a substitution
   * raises; whatever raises leaves the filesystem as it was, and nothing
   * but the file changes.
   */
  lemma PatchFileEffect(fs: Tree, target: Target, settings: Settings)
    requires WellFormed(fs)
    ensures var p := TargetPath(target);
      p !in fs ==> PatchFile(fs, target, settings) == Step(fs, None)
    ensures var p := TargetPath(target);
      p in fs && fs[p].File? ==>
        match PatchText(target, Universal(fs[p].content), settings)
        case Ok(c) => PatchFile(fs, target, settings) == Step(fs[p := File(c)], None)
        case Err(e) => PatchFile(fs, target, settings) == Step(fs, Some(e))
    ensures var p := TargetPath(target);
      p in fs && fs[p].Dir? ==> PatchFile(fs, target, settings).error.Some?
    ensures PatchFile(fs, target, settings).error.Some? ==> PatchFile(fs, target, settings).fs == fs
    ensures PatchFile(fs, target, settings).error.None? ==> WellFormed(PatchFile(fs, target, settings).fs)
    ensures forall q :: q != TargetPath(target) ==> Lookup(PatchFile(fs, target, settings).fs, q) == Lookup(fs, q)
  {
    var p := TargetPath(target);
    if p in fs && fs[p].File? {
      assert IsDirAt(fs, p[..|p| - 1]);
      var r := PatchText(target, Universal(fs[p].content), settings);
      if r.Ok? {
        WriteFileWellFormed(fs, p, r.value);
      }
    }
  }

  /**
   * The icon rule: when the setting is missing, empty or names nothing that
   * exists, nothing happens; otherwise the file is copied to the launcher
   * icon's place, which is all that changes, and the copy raises when the
   * directory `mipmap-xxxhdpi` that should hold the icon is missing.
   */
  lemma ApplyIconEffect(fs: Tree, settings: Settings)
    requires WellFormed(fs)
    ensures IconSource(settings).None? || !Exists(fs, IconSource(settings).value) ==>
      ApplyIcon(fs, settings) == Step(fs, None)
    ensures ApplyIcon(fs, settings).error.Some? ==> ApplyIcon(fs, settings).fs == fs
    ensures ApplyIcon(fs, settings).error.None? ==> WellFormed(ApplyIcon(fs, settings).fs)
    ensures forall q :: !Within(IconPath, q) ==> Lookup(ApplyIcon(fs, settings).fs, q) == Lookup(fs, q)
    ensures var src := IconSource(settings);
      src.Some? && src.value in fs && fs[src.value].File? && IsDirAt(fs, Parent(IconPath)) && !IsDirAt(fs, IconPath) ==>
        ApplyIcon(fs, settings) == Step(fs[IconPath := File(fs[src.value].content)], None)
    ensures var src := IconSource(settings);
      src.Some? && src.value in fs && fs[src.value].File? && !IsDirAt(fs, Parent(IconPath)) ==>
        ApplyIcon(fs, settings).error.Some? && ApplyIcon(fs, settings).fs == fs
  {
    var src := IconSource(settings);
    if src.Some? && Exists(fs, src.value) && CopyFile(fs, src.value, IconPath).Ok? {
      var c := ReadFile(fs, src.value).value;
      var target := if IsDirAt(fs, IconPath) && src.value != [] then IconPath + [src.value[|src.value| - 1]] else IconPath;
      WriteFileWellFormed(fs, target, c);
      forall q | !Within(IconPath, q)
        ensures Lookup(ApplyIcon(fs, settings).fs, q) == Lookup(fs, q)
      {
        assert Within(IconPath, target);
      }
    }
  }

  /** `os.makedirs(build_dir, exist_ok=True)` only creates the directories on the way to `builds/<id>`. */
  lemma BuildDirEffect(fs: Tree, id: string)
    requires WellFormed(fs)
    ensures var s := OsStep(fs, MakeDirs(fs, BuildDir(id)));
      && (s.error.Some? ==> s.fs == fs)
      && (s.error.None? ==> WellFormed(s.fs) && DirChain(s.fs, BuildDir(id)))
      && forall q :: Lookup(s.fs, q) == if s.error.None? && q in Ancestors(BuildDir(id)) then Some(Dir) else Lookup(fs, q)
  {
    if MakeDirs(fs, BuildDir(id)).Ok? {
      MakeDirsWellFormed(fs, BuildDir(id));
    }
  }

  // ---------------------------------------------------------------------------
  // What a successful build leaves behind

  /**
   * After the merge, the remaining steps change only the two patched
   * files, what lies within the icon's place and the directories on the
   * way to `builds/<id>`; the manifest is patched, and `build.gradle` is
   * patched in turn.
   */
  lemma FinishFrame(m: Tree, settings: Settings, id: string)
    requires WellFormed(m) && PlainName(id) && Finish(m, settings, id).error.None?
    ensures PatchFile(m, Manifest, settings).error.None?
    ensures PatchFile(PatchFile(m, Manifest, settings).fs, Gradle, settings).error.None?
    ensures forall q :: q != ManifestPath && q != GradlePath && !Within(IconPath, q) && q !in Ancestors(BuildDir(id)) ==>
      Lookup(Finish(m, settings, id).fs, q) == Lookup(m, q)
    ensures Lookup(Finish(m, settings, id).fs, ManifestPath) == Lookup(PatchFile(m, Manifest, settings).fs, ManifestPath)
    ensures Lookup(Finish(m, settings, id).fs, GradlePath) ==
      Lookup(PatchFile(PatchFile(m, Manifest, settings).fs, Gradle, settings).fs, GradlePath)
  {
    JobDirs(id);
    PatchFileEffect(m, Manifest, settings);
    var mp := PatchFile(m, Manifest, settings).fs;
    PatchFileEffect(mp, Gradle, settings);
    var gp := PatchFile(mp, Gradle, settings).fs;
    ApplyIconEffect(gp, settings);
    var ia := ApplyIcon(gp, settings).fs;
    BuildDirEffect(ia, id);
    OtherTop(BuildDir(id), ManifestPath);
    OtherTop(BuildDir(id), GradlePath);
    assert !Within(IconPath, ManifestPath) && !Within(IconPath, GradlePath);
  }

  /**
   * The manifest after a successful build: it exists exactly when the
   * uploaded archive held `src/main/AndroidManifest.xml`, and then it is
   * that file's text, line ends translated, with both substitutions
   * applied.
   */
  lemma ManifestOutcome(fs: Tree, settings: Settings, id: string, zip: Path, unpack: string -> Archive)
    requires WellFormed(fs) && PlainName(id) && Unpacks(unpack) && Finished(fs, settings, id, zip, unpack).error.None?
    ensures ArchiveTree(Staged(fs, id).fs, zip, unpack).Some?
    ensures
      var tree := ArchiveTree(Staged(fs, id).fs, zip, unpack).value;
      var t := Finished(fs, settings, id, zip, unpack).fs;
      && (ManifestPath in t <==> ManifestInProject in tree)
      && (ManifestInProject in tree ==>
            && tree[ManifestInProject].File?
            && PatchManifestText(Universal(tree[ManifestInProject].content), settings).Ok?
            && t[ManifestPath] == File(PatchManifestText(Universal(tree[ManifestInProject].content), settings).value)
            && settings.packageName != NoneValue && settings.appName != NoneValue)
  {
    MergedOutcome(fs, id, zip, unpack);
    var m := Merged(fs, id, zip, unpack).fs;
    FinishFrame(m, settings, id);
    PatchFileEffect(m, Manifest, settings);
    var tree := ArchiveTree(Staged(fs, id).fs, zip, unpack).value;
    assert Lookup(m, ManifestPath) == Lookup(tree, ManifestInProject);
    if ManifestInProject in tree && tree[ManifestInProject].File? {
      ManifestSubstitution(Universal(tree[ManifestInProject].content), settings);
    }
  }

  /**
   * A present `None` for the package identifier or the app name raises
   * the `TypeError` once the merged template has a manifest, and the
   * routine stops there.
   */
  lemma NoneNameRaises(fs: Tree, settings: Settings, id: string, zip: Path, unpack: string -> Archive)
    requires WellFormed(fs) && PlainName(id) && Unpacks(unpack) && Extracted(fs, id, zip, unpack).error.None?
    requires settings.packageName == NoneValue || settings.appName == NoneValue
    requires var tree := ArchiveTree(Staged(fs, id).fs, zip, unpack);
      tree.Some? && ManifestInProject in tree.value && tree.value[ManifestInProject].File?
    ensures Finished(fs, settings, id, zip, unpack) == Step(Merged(fs, id, zip, unpack).fs, Some(ReplaceTypeError))
    ensures forall executable :: Build(fs, settings, Some(id), id, zip, unpack, executable).result == Err(ReplaceTypeError)
  {
    MergedOutcome(fs, id, zip, unpack);
    var m := Merged(fs, id, zip, unpack).fs;
    var tree := ArchiveTree(Staged(fs, id).fs, zip, unpack).value;
    assert Lookup(m, ManifestPath) == Lookup(tree, ManifestInProject);
    PatchFileEffect(m, Manifest, settings);
    ManifestSubstitution(Universal(tree[ManifestInProject].content), settings);
  }

  /** `build.gradle` lies outside the template, `tmp/<id>` and the directories on the way to them. */
  lemma GradleApart(id: string)
    requires PlainName(id)
    ensures !Within(TemplateDir, GradlePath) && GradlePath !in Ancestors(TemplateDir)
    ensures !Within(TempDir(id), GradlePath) && GradlePath !in Ancestors(TempDir(id))
  {
    JobDirs(id);
    OtherTop(TempDir(id), GradlePath);
    forall k | 0 < k <= |TemplateDir|
      ensures GradlePath != TemplateDir[..k]
    {
      assert |TemplateDir[..k]| == k;
      assert k == 2 ==> TemplateDir[..k][1] != GradlePath[1];
    }
  }

  /** So staging, extraction and the merge leave it alone. */
  lemma GradleUntilMerge(fs: Tree, id: string, zip: Path, unpack: string -> Archive)
    requires WellFormed(fs) && PlainName(id) && Unpacks(unpack) && Extracted(fs, id, zip, unpack).error.None?
    ensures Lookup(Merged(fs, id, zip, unpack).fs, GradlePath) == Lookup(fs, GradlePath)
  {
    GradleApart(id);
    MergedOutcome(fs, id, zip, unpack);
    ExtractedOutcome(fs, id, zip, unpack);
    StagedOutcome(fs, id);
    var s := Staged(fs, id).fs;
    var e := Extracted(fs, id, zip, unpack).fs;
    assert Lookup(s, GradlePath) == Lookup(fs, GradlePath);
    assert Lookup(e, GradlePath) == Lookup(s, GradlePath);
  }

  /**
   * `build.gradle` after a successful build: a missing file stays missing;
   * an existing one, as it was before the build, has its line ends
   * translated and every `1.0.0` replaced by the version. Since the file is never reset, a later build
   * patches what the earlier one wrote (`VersionKeptOnRebuild`).
   */
  lemma GradleOutcome(fs: Tree, settings: Settings, id: string, zip: Path, unpack: string -> Archive)
    requires WellFormed(fs) && PlainName(id) && Unpacks(unpack) && Finished(fs, settings, id, zip, unpack).error.None?
    ensures var t := Finished(fs, settings, id, zip, unpack).fs;
      GradlePath !in fs ==> GradlePath !in t
    ensures var t := Finished(fs, settings, id, zip, unpack).fs;
      GradlePath in fs ==>
        && fs[GradlePath].File?
        && PatchGradleText(Universal(fs[GradlePath].content), settings).Ok?
        && GradlePath in t && t[GradlePath] == File(PatchGradleText(Universal(fs[GradlePath].content), settings).value)
        && settings.version != NoneValue
  {
    GradleUntilMerge(fs, id, zip, unpack);
    MergedOutcome(fs, id, zip, unpack);
    var m := Merged(fs, id, zip, unpack).fs;
    FinishFrame(m, settings, id);
    PatchFileEffect(m, Manifest, settings);
    var mp := PatchFile(m, Manifest, settings).fs;
    PatchFileEffect(mp, Gradle, settings);
    if GradlePath in fs && fs[GradlePath].File? {
      GradleSubstitution(Universal(fs[GradlePath].content), settings);
    }
  }

  // ---------------------------------------------------------------------------
  // Launching Gradle

  /** Staging, extraction, the merge and the later steps leave the launcher alone, and its directory exists afterwards. */
  lemma GradlewUntouched(fs: Tree, settings: Settings, id: string, zip: Path, unpack: string -> Archive)
    requires WellFormed(fs) && PlainName(id) && Unpacks(unpack) && Finished(fs, settings, id, zip, unpack).error.None?
    ensures Lookup(Finished(fs, settings, id, zip, unpack).fs, GradlewPath) == Lookup(fs, GradlewPath)
    ensures IsDirAt(Finished(fs, settings, id, zip, unpack).fs, GradleCwd)
  {
    JobDirs(id);
    GradlewApart();
    OtherTop(TempDir(id), GradlewPath);
    OtherTop(BuildDir(id), GradlewPath);
    OtherTop(BuildDir(id), GradleCwd);
    MergedOutcome(fs, id, zip, unpack);
    ExtractedOutcome(fs, id, zip, unpack);
    StagedOutcome(fs, id);
    var s := Staged(fs, id).fs;
    var e := Extracted(fs, id, zip, unpack).fs;
    var m := Merged(fs, id, zip, unpack).fs;
    assert Lookup(s, GradlewPath) == Lookup(fs, GradlewPath);
    assert Lookup(e, GradlewPath) == Lookup(s, GradlewPath);
    assert Lookup(m, GradlewPath) == Lookup(e, GradlewPath);
    FinishFrame(m, settings, id);
    assert !Within(IconPath, GradlewPath) by {
      assert |IconPath| > |GradlewPath|;
    }
    assert TemplateDir[..2] == GradleCwd;
    assert IsDirAt(m, GradleCwd);
    assert !Within(IconPath, GradleCwd) by {
      assert |IconPath| > |GradleCwd|;
    }
    assert GradleCwd != ManifestPath && GradleCwd != GradlePath;
  }

  /**
   * Once the filesystem steps have succeeded, the build returns exactly
   * when `engine/android-template/gradlew` was a file before the build and
   * may be executed; a missing launcher raises `FileNotFoundError`, a
   * directory or a launcher without the execute permission
   * `PermissionError`.
   */
  lemma LaunchOutcome(fs: Tree, settings: Settings, id: string, zip: Path, unpack: string -> Archive, executable: bool)
    requires WellFormed(fs) && PlainName(id) && Unpacks(unpack) && Finished(fs, settings, id, zip, unpack).error.None?
    ensures Build(fs, settings, Some(id), id, zip, unpack, executable).result.Ok? <==>
      GradlewPath in fs && fs[GradlewPath].File? && executable
    ensures GradlewPath !in fs ==>
      Build(fs, settings, Some(id), id, zip, unpack, executable).result == Err(Os(NoSuchFile(GradlewPath)))
    ensures GradlewPath in fs && (fs[GradlewPath].Dir? || !executable) ==>
      Build(fs, settings, Some(id), id, zip, unpack, executable).result == Err(Os(PermissionDenied(GradlewPath)))
  {
    GradlewUntouched(fs, settings, id, zip, unpack);
  }

  // ---------------------------------------------------------------------------
  // No file appears anywhere else

  /** Outside the engine directory and outside `tmp/<id>`. */
  predicate Elsewhere(q: Path, id: string)
  {
    !Within(EngineDir, q) && !Within(TempDir(id), q)
  }

  /** Every file `b` holds outside the engine directory and `tmp/<id>` is a file of `a` with the same text. */
  ghost predicate NoNewFiles(a: Tree, b: Tree, id: string)
  {
    forall q :: Elsewhere(q, id) && q in b && b[q].File? ==> q in a && a[q] == b[q]
  }

  lemma NoNewFilesTrans(a: Tree, b: Tree, c: Tree, id: string)
    requires NoNewFiles(a, b, id) && NoNewFiles(b, c, id)
    ensures NoNewFiles(a, c, id)
  {
  }

  /** Changes confined to a place inside the engine directory, or to `tmp/<id>`, add no file elsewhere. */
  lemma KeptElsewhere(a: Tree, b: Tree, id: string, r: Path)
    requires Within(EngineDir, r) || r == TempDir(id)
    requires forall q :: !Within(r, q) ==> Lookup(a, q) == Lookup(b, q)
    ensures NoNewFiles(a, b, id)
  {
    forall q | Elsewhere(q, id) && q in b && b[q].File?
      ensures q in a && a[q] == b[q]
    {
      assert Lookup(a, q) == Lookup(b, q);
    }
  }

  /** `os.makedirs` creates directories only. */
  lemma MakeDirsNoFiles(fs: Tree, p: Path)
    ensures MakeDirs(fs, p).Ok? ==> forall q :: q in MakeDirs(fs, p).value && MakeDirs(fs, p).value[q].File? ==>
      q in fs && fs[q] == MakeDirs(fs, p).value[q]
  {
  }

  /** A reset removes and creates, but never creates a file. */
  lemma ResetNoFiles(fs: Tree, p: Path, id: string)
    ensures NoNewFiles(fs, Reset(fs, p).fs, id)
  {
    MakeDirsNoFiles(fs, p);
    MakeDirsNoFiles(Prune(fs, p), p);
  }

  /** The steps after the merge add no file elsewhere, whether they succeed or raise. */
  lemma FinishNoNewFiles(m: Tree, settings: Settings, id: string)
    requires WellFormed(m)
    ensures NoNewFiles(m, Finish(m, settings, id).fs, id)
  {
    PatchFileEffect(m, Manifest, settings);
    var a := PatchFile(m, Manifest, settings);
    KeptElsewhere(m, a.fs, id, ManifestPath);
    if a.error.None? {
      PatchFileEffect(a.fs, Gradle, settings);
      var b := PatchFile(a.fs, Gradle, settings);
      KeptElsewhere(a.fs, b.fs, id, GradlePath);
      NoNewFilesTrans(m, a.fs, b.fs, id);
      if b.error.None? {
        ApplyIconEffect(b.fs, settings);
        var c := ApplyIcon(b.fs, settings);
        KeptElsewhere(b.fs, c.fs, id, IconPath);
        NoNewFilesTrans(m, b.fs, c.fs, id);
        if c.error.None? {
          MakeDirsNoFiles(c.fs, BuildDir(id));
          NoNewFilesTrans(m, c.fs, Finish(m, settings, id).fs, id);
        }
      }
    }
  }

  lemma StagedNoNewFiles(fs: Tree, id: string)
    ensures NoNewFiles(fs, Staged(fs, id).fs, id)
  {
    ResetNoFiles(fs, TemplateDir, id);
    var a := Reset(fs, TemplateDir);
    if a.error.None? {
      ResetNoFiles(a.fs, TempDir(id), id);
      NoNewFilesTrans(fs, a.fs, Reset(a.fs, TempDir(id)).fs, id);
    }
  }

  /**
   * Whether it succeeds or raises, the build leaves no new or changed file
   * outside the engine directory and `tmp/<id>`: in particular it never
   * puts anything at `builds/<id>/app-debug.apk`.
   */
  lemma BuildNoNewFiles(fs: Tree, settings: Settings, id: string, zip: Path, unpack: string -> Archive)
    requires WellFormed(fs) && PlainName(id) && Unpacks(unpack)
    ensures NoNewFiles(fs, Finished(fs, settings, id, zip, unpack).fs, id)
  {
    StagedNoNewFiles(fs, id);
    ExtractNoNewFiles(fs, id, zip, unpack);
    var s := Staged(fs, id).fs;
    var e := Extracted(fs, id, zip, unpack);
    NoNewFilesTrans(fs, s, e.fs, id);
    if e.error.None? {
      MergeNoNewFiles(fs, id, zip, unpack);
      MergedOutcome(fs, id, zip, unpack);
      var m := Merged(fs, id, zip, unpack).fs;
      NoNewFilesTrans(fs, e.fs, m, id);
      FinishNoNewFiles(m, settings, id);
      NoNewFilesTrans(fs, m, Finished(fs, settings, id, zip, unpack).fs, id);
    }
  }

  lemma ExtractNoNewFiles(fs: Tree, id: string, zip: Path, unpack: string -> Archive)
    requires WellFormed(fs) && PlainName(id) && Unpacks(unpack)
    ensures NoNewFiles(Staged(fs, id).fs, Extracted(fs, id, zip, unpack).fs, id)
  {
    StagedOutcome(fs, id);
    var s := Staged(fs, id);
    if s.error.None? {
      JobDirs(id);
      ExtractedOutcome(fs, id, zip, unpack);
      KeptElsewhere(s.fs, Extracted(fs, id, zip, unpack).fs, id, TempDir(id));
    }
  }

  lemma MergeNoNewFiles(fs: Tree, id: string, zip: Path, unpack: string -> Archive)
    requires WellFormed(fs) && PlainName(id) && Unpacks(unpack) && Extracted(fs, id, zip, unpack).error.None?
    ensures NoNewFiles(Extracted(fs, id, zip, unpack).fs, Merged(fs, id, zip, unpack).fs, id)
  {
    MergedOutcome(fs, id, zip, unpack);
    KeptElsewhere(Extracted(fs, id, zip, unpack).fs, Merged(fs, id, zip, unpack).fs, id, TemplateDir);
  }

  // ---------------------------------------------------------------------------
  // The routine on the disk

  /** What the server pushes to its clients. */
  datatype Event = ApkReady(url: string)

  /** The Socket.IO channel, as the log of the events emitted on it. */
  class Channel {
    var events: seq<Event>

    constructor ()
      ensures events == []
    {
      events := [];
    }

    /** `socketio.emit(name, payload)`. */
    method Emit(e: Event)
      modifies this
      ensures events == old(events) + [e]
    {
      events := events + [e];
    }
  }

  /** `if os.path.exists(p): shutil.rmtree(p)`, then `os.makedirs(p, exist_ok=True)`. */
  method ResetDirectory(disk: Disk, p: Path) returns (err: Option<BuildError>)
    requires disk.Valid()
    modifies disk
    ensures disk.Valid()
    ensures Step(disk.nodes, err) == Reset(old(disk.nodes), p)
  {
    if disk.PathExists(p) {
      var e := disk.RemoveTree(p);
      if e.Some? {
        return Some(Os(e.value));
      }
    }
    var e := disk.MakeDirectories(p);
    err := if e.Some? then Some(Os(e.value)) else None;
  }

  /** `shutil.unpack_archive(zip, dst)`. */
  method ExtractInto(disk: Disk, zip: Path, dst: Path, unpack: string -> Archive) returns (err: Option<BuildError>)
    requires disk.Valid() && DirChain(disk.nodes, dst) && dst != [] && EmptyBelow(disk.nodes, dst) && Unpacks(unpack)
    modifies disk
    ensures disk.Valid()
    ensures Step(disk.nodes, err) == Unpack(old(disk.nodes), zip, dst, unpack)
  {
    var e := disk.Extract(zip, dst, unpack);
    err := if e.Some? then Some(Extraction(e.value)) else None;
  }

  /** Read, substitute and write back one of the two patched files, if it exists. */
  method PatchOnDisk(disk: Disk, target: Target, settings: Settings) returns (err: Option<BuildError>)
    requires disk.Valid()
    modifies disk
    ensures disk.Valid()
    ensures Step(disk.nodes, err) == PatchFile(old(disk.nodes), target, settings)
  {
    var p := TargetPath(target);
    if disk.PathExists(p) {
      var content := disk.ReadText(p);
      if content.Err? {
        return Some(Os(content.error));
      }
      var patched := PatchText(target, content.value, settings);
      if patched.Err? {
        return Some(patched.error);
      }
      var e := disk.WriteText(p, patched.value);
      if e.Some? {
        return Some(Os(e.value));
      }
    }
    return None;
  }

  /** Copy the icon over the launcher icon when the setting is truthy and names an existing path. */
  method IconOnDisk(disk: Disk, settings: Settings) returns (err: Option<BuildError>)
    requires disk.Valid()
    modifies disk
    ensures disk.Valid()
    ensures Step(disk.nodes, err) == ApplyIcon(old(disk.nodes), settings)
  {
    var src := IconSource(settings);
    if src.Some? && disk.PathExists(src.value) {
      var e := disk.Copy2(src.value, IconPath);
      if e.Some? {
        return Some(Os(e.value));
      }
    }
    return None;
  }

  /**
   * The filesystem steps of `build_apk` for the job `id`: both resets, the
   * extraction, the copy loop, both patches, the icon and the build
   * directory, stopping at the first exception.
   */
  method BuildSteps(disk: Disk, zip: Path, settings: Settings, id: string, unpack: string -> Archive)
    returns (err: Option<BuildError>)
    requires disk.Valid() && Unpacks(unpack) && PlainName(id)
    modifies disk
    ensures disk.Valid()
    ensures Step(disk.nodes, err) == Finished(old(disk.nodes), settings, id, zip, unpack)
  {
    ghost var fs0 := disk.nodes;
    JobDirs(id);
    StagedOutcome(fs0, id);
    var dst := TemplateDir;
    var buildDir := BuildDir(id);
    var tempDir := TempDir(id);

    err := ResetDirectory(disk, dst);
    if err.Some? {
      return;
    }
    err := ResetDirectory(disk, tempDir);
    if err.Some? {
      return;
    }

    err := ExtractInto(disk, zip, tempDir, unpack);
    if err.Some? {
      return;
    }
    ExtractedOutcome(fs0, id, zip, unpack);
    EmptyFits(disk.nodes, dst, Sub(disk.nodes, tempDir) - {[]});
    CopyEntries(disk, tempDir, dst);
    ghost var merged := disk.nodes;

    err := PatchOnDisk(disk, Manifest, settings);
    if err.Some? {
      return;
    }
    err := PatchOnDisk(disk, Gradle, settings);
    if err.Some? {
      return;
    }
    err := IconOnDisk(disk, settings);
    if err.Some? {
      return;
    }
    var e := disk.MakeDirectories(buildDir);
    err := if e.Some? then Some(Os(e.value)) else None;
  }

  /**
   * `build_apk(zip_path, project_settings, project_id)`. `freshId` stands
   * for `str(uuid.uuid4())`, taken only when `project_id` is `None`;
   * `executable` is whether `engine/android-template/gradlew` may be
   * executed; `gradleStatus` is the exit status of `./gradlew
   * assembleDebug`, which `check=False` leaves unexamined. An exception,
   * including one from launching Gradle, ends the routine with the
   * filesystem as far as it got and nothing emitted.
   */
  method BuildApk(disk: Disk, channel: Channel, zip: Path, settings: Settings, projectId: Option<string>,
                  freshId: string, unpack: string -> Archive, executable: bool, gradleStatus: int)
    returns (r: Result<string, BuildError>)
    requires disk.Valid() && Unpacks(unpack) && PlainName(JobId(projectId, freshId))
    modifies disk, channel
    ensures disk.Valid()
    ensures Outcome(disk.nodes, r) == Build(old(disk.nodes), settings, projectId, freshId, zip, unpack, executable)
    ensures channel.events == old(channel.events) + if r.Ok? then [ApkReady("/download/" + r.value)] else []
  {
    var id := if projectId.None? then freshId else projectId.value;
    ghost var fs0 := disk.nodes;
    ghost var o := Build(fs0, settings, projectId, freshId, zip, unpack, executable);
    var err := BuildSteps(disk, zip, settings, id, unpack);
    assert Step(disk.nodes, err) == Finished(fs0, settings, id, zip, unpack);
    assert o.fs == disk.nodes;
    if err.Some? {
      assert o.result == Err(err.value);
      return Err(err.value);
    }
    var launch := disk.Run(GradleCwd, Gradlew, executable);
    assert launch == LaunchError(disk.nodes, GradleCwd, Gradlew, executable);
    if launch.Some? {
      assert o.result == Err(Os(launch.value));
      return Err(Os(launch.value));
    }
    assert o.result == Ok(id);
    // ./gradlew assembleDebug runs here; its status (gradleStatus) is not examined.
    channel.Emit(ApkReady("/download/" + id));
    r := Ok(id);
  }
}
