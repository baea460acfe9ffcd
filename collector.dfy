/** Collecting the files to combine (`collectAllFiles` and
    `collectFilesFromDirectory`): the rules of every selected directory are
    merged, then each selected directory is walked depth first in enumeration
    order, skipping ignored entries, and each selected non-directory is taken
    as it is. Any `statSync` or `readdirSync` failure aborts the whole
    collection. */
module Collector {
  import opened Wrappers
  import opened Paths
  import opened FileSystem
  import opened Ignore
  import opened Seqs

  /** The outcome of a walk: the files pushed, in order, and the error that
      stopped it, if one did. */
  datatype Walk = Walk(files: seq<Path>, error: Option<string>)

  /** The walk over the entries `cs` of directory `dir`, in order, stopping
      at the first error. */
  function WalkEntries(cs: seq<Node>, dir: Path, scopes: Scopes): Walk
    decreases cs
  {
    if cs == [] then Walk([], None)
    else
      var w := WalkEntries(cs[..|cs| - 1], dir, scopes);
      if w.error.Some? then w
      else
        var e := EntryWalk(cs[|cs| - 1], dir, scopes);
        Walk(w.files + e.files, e.error)
  }

  /** What one entry `c` of `dir` contributes: nothing when its path is
      ignored; the walk of its listing when it is a directory (the error of
      an unreadable one); otherwise its own path. */
  function EntryWalk(c: Node, dir: Path, scopes: Scopes): Walk
    decreases c
  {
    var full := dir + [c.name];
    if Ignored(full, scopes) then Walk([], None)
    else match c
      case Dir(_, Unreadable(m, _)) => Walk([], Some(m))
      case Dir(_, Entries(sub)) => WalkEntries(sub, full, scopes)
      case _ => Walk([full], None)
  }

  /** The walk of a directory whose `readdirSync` gave `l`. */
  function WalkListing(l: Listing, dir: Path, scopes: Scopes): Walk
  {
    match l
    case Unreadable(m, _) => Walk([], Some(m))
    case Entries(cs) => WalkEntries(cs, dir, scopes)
  }

  // ---------------------------------------------------------------------------
  // What a walk should find, stated without the order of the walk
  // ---------------------------------------------------------------------------

  /** `f` is a file found below one of the entries `cs` of `dir`. */
  ghost predicate Listed(cs: seq<Node>, dir: Path, scopes: Scopes, f: Path)
    decreases cs
  {
    exists i :: 0 <= i < |cs| && EntryListed(cs[i], dir, scopes, f)
  }

  /** The entry `c` of `dir` is not ignored and is `f` itself (when it is not a
      directory) or a readable directory under which `f` is listed. */
  ghost predicate EntryListed(c: Node, dir: Path, scopes: Scopes, f: Path)
    decreases c
  {
    var full := dir + [c.name];
    !Ignored(full, scopes) &&
    match c
    case Dir(_, Entries(sub)) => Listed(sub, full, scopes, f)
    case Dir(_, Unreadable(_, _)) => false
    case _ => f == full
  }

  /** Some entry of `dir` that is not ignored leads to an unreadable directory. */
  ghost predicate Blocked(cs: seq<Node>, dir: Path, scopes: Scopes)
    decreases cs
  {
    exists i :: 0 <= i < |cs| && EntryBlocked(cs[i], dir, scopes)
  }

  ghost predicate EntryBlocked(c: Node, dir: Path, scopes: Scopes)
    decreases c
  {
    var full := dir + [c.name];
    !Ignored(full, scopes) &&
    match c
    case Dir(_, Entries(sub)) => Blocked(sub, full, scopes)
    case Dir(_, Unreadable(_, _)) => true
    case _ => false
  }

  ghost predicate ListingListed(l: Listing, dir: Path, scopes: Scopes, f: Path)
  {
    l.Entries? && Listed(l.children, dir, scopes, f)
  }

  ghost predicate ListingBlocked(l: Listing, dir: Path, scopes: Scopes)
  {
    l.Unreadable? || Blocked(l.children, dir, scopes)
  }

  lemma ListedSnoc(cs: seq<Node>, dir: Path, scopes: Scopes, f: Path)
    requires cs != []
    ensures Listed(cs, dir, scopes, f) <==>
            Listed(cs[..|cs| - 1], dir, scopes, f) || EntryListed(cs[|cs| - 1], dir, scopes, f)
  {
    var p := cs[..|cs| - 1];
    if Listed(cs, dir, scopes, f) {
      var i :| 0 <= i < |cs| && EntryListed(cs[i], dir, scopes, f);
      if i < |p| {
        assert p[i] == cs[i];
      }
    }
    if Listed(p, dir, scopes, f) {
      var i :| 0 <= i < |p| && EntryListed(p[i], dir, scopes, f);
      assert cs[i] == p[i];
    }
  }

  lemma BlockedSnoc(cs: seq<Node>, dir: Path, scopes: Scopes)
    requires cs != []
    ensures Blocked(cs, dir, scopes) <==>
            Blocked(cs[..|cs| - 1], dir, scopes) || EntryBlocked(cs[|cs| - 1], dir, scopes)
  {
    var p := cs[..|cs| - 1];
    if Blocked(cs, dir, scopes) {
      var i :| 0 <= i < |cs| && EntryBlocked(cs[i], dir, scopes);
      if i < |p| {
        assert p[i] == cs[i];
      }
    }
    if Blocked(p, dir, scopes) {
      var i :| 0 <= i < |p| && EntryBlocked(p[i], dir, scopes);
      assert cs[i] == p[i];
    }
  }

  /** The walk stops with an error exactly when an unreadable directory is
      reachable without passing an ignored path; every file it pushes is
      listed, and when it finishes it has pushed every listed file. */
  lemma {:induction false} WalkEntriesMeaning(cs: seq<Node>, dir: Path, scopes: Scopes)
    decreases cs
    ensures var w := WalkEntries(cs, dir, scopes);
      && (w.error.Some? <==> Blocked(cs, dir, scopes))
      && (forall f :: f in w.files ==> Listed(cs, dir, scopes, f))
      && (w.error.None? ==> forall f :: Listed(cs, dir, scopes, f) ==> f in w.files)
  {
    if cs != [] {
      var p := cs[..|cs| - 1];
      var c := cs[|cs| - 1];
      WalkEntriesMeaning(p, dir, scopes);
      EntryWalkMeaning(c, dir, scopes);
      BlockedSnoc(cs, dir, scopes);
      forall f ensures Listed(cs, dir, scopes, f) <==> Listed(p, dir, scopes, f) || EntryListed(c, dir, scopes, f) {
        ListedSnoc(cs, dir, scopes, f);
      }
    }
  }

  /** The same for one entry. */
  lemma {:induction false} EntryWalkMeaning(c: Node, dir: Path, scopes: Scopes)
    decreases c
    ensures var e := EntryWalk(c, dir, scopes);
      && (e.error.Some? <==> EntryBlocked(c, dir, scopes))
      && (forall f :: f in e.files ==> EntryListed(c, dir, scopes, f))
      && (e.error.None? ==> forall f :: EntryListed(c, dir, scopes, f) ==> f in e.files)
  {
    var full := dir + [c.name];
    if !Ignored(full, scopes) {
      match c
      case Dir(_, Unreadable(_, _)) =>
      case Dir(_, Entries(sub)) =>
        WalkEntriesMeaning(sub, full, scopes);
      case File(_, _, _) =>
      case Special(_) =>
    }
  }

  /** The same for the walk of a whole directory. */
  lemma WalkListingMeaning(l: Listing, dir: Path, scopes: Scopes)
    ensures var w := WalkListing(l, dir, scopes);
      && (w.error.Some? <==> ListingBlocked(l, dir, scopes))
      && (forall f :: f in w.files ==> ListingListed(l, dir, scopes, f))
      && (w.error.None? ==> forall f :: ListingListed(l, dir, scopes, f) ==> f in w.files)
  {
    if l.Entries? {
      WalkEntriesMeaning(l.children, dir, scopes);
    }
  }

  /** A listed file lies strictly below the directory walked and is not
      ignored itself. */
  lemma {:induction false} ListedShape(cs: seq<Node>, dir: Path, scopes: Scopes, f: Path)
    requires Listed(cs, dir, scopes, f)
    decreases cs
    ensures IsStrictPrefix(dir, f) && !Ignored(f, scopes)
  {
    var i :| 0 <= i < |cs| && EntryListed(cs[i], dir, scopes, f);
    var full := dir + [cs[i].name];
    match cs[i]
    case Dir(_, Entries(sub)) =>
      ListedShape(sub, full, scopes, f);
      assert f[..|dir|] == f[..|full|][..|dir|];
    case File(_, _, _) =>
    case Special(_) =>
  }

  /** Once the walk of a prefix of the entries has failed, the rest of the
      entries change nothing. */
  lemma {:induction false} WalkErrorSticks(cs: seq<Node>, k: nat, dir: Path, scopes: Scopes)
    requires k <= |cs| && WalkEntries(cs[..k], dir, scopes).error.Some?
    decreases |cs|
    ensures WalkEntries(cs, dir, scopes) == WalkEntries(cs[..k], dir, scopes)
  {
    if k == |cs| {
      assert cs[..k] == cs;
    } else {
      var p := cs[..|cs| - 1];
      assert p[..k] == cs[..k];
      WalkErrorSticks(p, k, dir, scopes);
    }
  }

  /** One more entry walked, after a prefix that did not fail. */
  lemma WalkEntriesStep(cs: seq<Node>, i: nat, dir: Path, scopes: Scopes)
    requires i < |cs| && WalkEntries(cs[..i], dir, scopes).error.None?
    ensures var e := EntryWalk(cs[i], dir, scopes);
      WalkEntries(cs[..i + 1], dir, scopes) == Walk(WalkEntries(cs[..i], dir, scopes).files + e.files, e.error)
  {
    TakeSnoc(cs, i);
  }

  // ---------------------------------------------------------------------------
  // collectFilesFromDirectory
  // ---------------------------------------------------------------------------

  /** The `fileList` array the walk pushes to. */
  class FileList {
    var paths: seq<Path>

    constructor ()
      ensures paths == []
    {
      paths := [];
    }

    /** `fileList.push(p)`. */
    method Push(p: Path)
      modifies this
      ensures paths == old(paths) + [p]
    {
      paths := paths + [p];
    }
  }

  /** `collectFilesFromDirectory(dirPath, fileList, ignorePatterns)`: pushes
      what the walk of `dirPath` finds, in order; an error is what the call
      throws, after the files pushed so far. */
  method CollectFilesFromDirectory(fs: Fs, dirPath: Path, fileList: FileList, ignorePatterns: Scopes)
    returns (error: Option<string>)
    requires WellFormed(fs.root)
    modifies fileList
    decreases ReadDir(fs, dirPath)
    ensures var w := WalkListing(ReadDir(fs, dirPath), dirPath, ignorePatterns);
      fileList.paths == old(fileList.paths) + w.files && error == w.error
  {
    var entries := ReadDir(fs, dirPath);
    if entries.Unreadable? {
      return Some(entries.message);
    }
    error := CollectEntries(fs, dirPath, entries.children, fileList, ignorePatterns);
  }

  /** The loop of `collectFilesFromDirectory` over the entries `cs` of
      `dirPath`, returning at the first error. */
  method CollectEntries(fs: Fs, dirPath: Path, cs: seq<Node>, fileList: FileList, ignorePatterns: Scopes)
    returns (error: Option<string>)
    requires WellFormed(fs.root) && ReadDir(fs, dirPath) == Entries(cs)
    modifies fileList
    decreases cs
    ensures var w := WalkEntries(cs, dirPath, ignorePatterns);
      fileList.paths == old(fileList.paths) + w.files && error == w.error
  {
    ghost var start := fileList.paths;
    var i := 0;
    while i < |cs|
      invariant 0 <= i <= |cs|
      invariant WalkEntries(cs[..i], dirPath, ignorePatterns).error.None?
      invariant fileList.paths == start + WalkEntries(cs[..i], dirPath, ignorePatterns).files
    {
      var entry := cs[i];
      EntryFound(fs, dirPath, cs, i);
      ghost var w := WalkEntries(cs[..i], dirPath, ignorePatterns);
      ghost var e := EntryWalk(entry, dirPath, ignorePatterns);
      WalkEntriesStep(cs, i, dirPath, ignorePatterns);
      var err := CollectEntry(fs, dirPath, entry, fileList, ignorePatterns);
      ConcatAssoc(start, w.files, e.files);
      if err.Some? {
        WalkErrorSticks(cs, i + 1, dirPath, ignorePatterns);
        return err;
      }
      i := i + 1;
    }
    TakeAll(cs);
    return None;
  }

  /** The `i`-th entry of a directory is found at its path. */
  lemma EntryFound(fs: Fs, dirPath: Path, cs: seq<Node>, i: nat)
    requires WellFormed(fs.root) && ReadDir(fs, dirPath) == Entries(cs) && i < |cs|
    ensures Lookup(fs, dirPath + [cs[i].name]) == Some(cs[i])
  {
    LookupEntry(fs, dirPath, cs, i, []);
    AppendEmpty(dirPath + [cs[i].name]);
  }

  /** The body of the loop of `collectFilesFromDirectory` for one entry:
      skipped when `shouldIgnorePath` says so, walked when it is a directory,
      pushed otherwise. */
  method CollectEntry(fs: Fs, dirPath: Path, entry: Node, fileList: FileList, ignorePatterns: Scopes)
    returns (error: Option<string>)
    requires WellFormed(fs.root) && Lookup(fs, dirPath + [entry.name]) == Some(entry)
    modifies fileList
    decreases entry
    ensures var e := EntryWalk(entry, dirPath, ignorePatterns);
      fileList.paths == old(fileList.paths) + e.files && error == e.error
  {
    var fullPath := JoinPath(dirPath, entry.name);
    var ignored := ShouldIgnorePath(fullPath, dirPath, ignorePatterns);
    if ignored {
      return None;
    }
    if entry.Dir? {
      assert ReadDir(fs, fullPath) == entry.listing;
      error := CollectFilesFromDirectory(fs, fullPath, fileList, ignorePatterns);
    } else {
      fileList.Push(fullPath);
      error := None;
    }
  }

  // ---------------------------------------------------------------------------
  // collectAllFiles
  // ---------------------------------------------------------------------------

  /** The first loop of `collectAllFiles`: the rules of every selected
      directory merged in selection order; a selection that `statSync`
      cannot find throws. */
  function GatherRules(fs: Fs, paths: seq<Path>): Result<Scopes>
    decreases |paths|
  {
    if paths == [] then Ok(map[])
    else match GatherRules(fs, paths[..|paths| - 1])
      case Err(e) => Err(e)
      case Ok(m) =>
        match Stat(fs, paths[|paths| - 1])
        case None => Err(fs.missing)
        case Some(true) => Ok(Merge(m, ScopesOf(fs, paths[|paths| - 1])))
        case Some(false) => Ok(m)
  }

  /** The second loop of `collectAllFiles`: each selected directory walked,
      each other selection pushed as it is, stopping at the first error. */
  function CollectPaths(fs: Fs, paths: seq<Path>, scopes: Scopes): Walk
    decreases |paths|
  {
    if paths == [] then Walk([], None)
    else
      var w := CollectPaths(fs, paths[..|paths| - 1], scopes);
      if w.error.Some? then w
      else
        var e := SelectionWalk(fs, paths[|paths| - 1], scopes);
        Walk(w.files + e.files, e.error)
  }

  /** What one selected path contributes to the second loop. */
  function SelectionWalk(fs: Fs, p: Path, scopes: Scopes): Walk
  {
    match Stat(fs, p)
    case None => Walk([], Some(fs.missing))
    case Some(true) => WalkListing(ReadDir(fs, p), p, scopes)
    case Some(false) => Walk([p], None)
  }

  /** `collectAllFiles(paths)`: the collected files, or the error it throws. */
  function CollectAll(fs: Fs, paths: seq<Path>): Result<seq<Path>>
  {
    match GatherRules(fs, paths)
    case Err(e) => Err(e)
    case Ok(scopes) =>
      var w := CollectPaths(fs, paths, scopes);
      if w.error.Some? then Err(w.error.value) else Ok(w.files)
  }

  /** The rules are gathered exactly when every selection exists, and then a
      path is ignored under them exactly when the rules of some selected
      directory ignore it. */
  lemma {:induction false} GatherRulesMeaning(fs: Fs, paths: seq<Path>)
    decreases |paths|
    ensures GatherRules(fs, paths).Ok? <==> forall i :: 0 <= i < |paths| ==> Stat(fs, paths[i]).Some?
    ensures GatherRules(fs, paths).Ok? ==> forall f :: Ignored(f, GatherRules(fs, paths).value) <==>
      exists i :: 0 <= i < |paths| && IsDirectory(fs, paths[i]) && Ignored(f, ScopesOf(fs, paths[i]))
  {
    if paths != [] {
      var q := paths[..|paths| - 1];
      var p := paths[|paths| - 1];
      GatherRulesMeaning(fs, q);
      assert forall i :: 0 <= i < |q| ==> q[i] == paths[i];
      var g := GatherRules(fs, q);
      if g.Ok? && Stat(fs, p).Some? {
        forall f
          ensures Ignored(f, GatherRules(fs, paths).value) <==>
            exists i :: 0 <= i < |paths| && IsDirectory(fs, paths[i]) && Ignored(f, ScopesOf(fs, paths[i]))
        {
          if IsDirectory(fs, p) {
            IgnoredMerge(f, g.value, ScopesOf(fs, p));
          }
          SelectedSnoc(fs, paths, f);
        }
      }
    }
  }

  lemma SelectedSnoc(fs: Fs, paths: seq<Path>, f: Path)
    requires paths != []
    ensures (exists i :: 0 <= i < |paths| && IsDirectory(fs, paths[i]) && Ignored(f, ScopesOf(fs, paths[i]))) <==>
      (exists i :: 0 <= i < |paths| - 1 && IsDirectory(fs, paths[i]) && Ignored(f, ScopesOf(fs, paths[i])))
      || (IsDirectory(fs, paths[|paths| - 1]) && Ignored(f, ScopesOf(fs, paths[|paths| - 1])))
  {
    ExistsSnoc(paths, p => IsDirectory(fs, p) && Ignored(f, ScopesOf(fs, p)));
  }

  /** `f` is collected because of the selection `p`: `p` is a directory under
      which `f` is listed, or `p` is not a directory and is `f` itself (a
      selected file is taken whatever the rules say). */
  ghost predicate Contributes(fs: Fs, p: Path, scopes: Scopes, f: Path)
  {
    match Stat(fs, p)
    case None => false
    case Some(true) => ListingListed(ReadDir(fs, p), p, scopes, f)
    case Some(false) => f == p
  }

  /** The selection `p` makes the second loop throw. */
  ghost predicate Fails(fs: Fs, p: Path, scopes: Scopes)
  {
    match Stat(fs, p)
    case None => true
    case Some(true) => ListingBlocked(ReadDir(fs, p), p, scopes)
    case Some(false) => false
  }

  lemma SelectionWalkMeaning(fs: Fs, p: Path, scopes: Scopes)
    ensures var e := SelectionWalk(fs, p, scopes);
      && (e.error.Some? <==> Fails(fs, p, scopes))
      && (forall f :: f in e.files ==> Contributes(fs, p, scopes, f))
      && (e.error.None? ==> forall f :: Contributes(fs, p, scopes, f) ==> f in e.files)
  {
    if Stat(fs, p) == Some(true) {
      WalkListingMeaning(ReadDir(fs, p), p, scopes);
    }
  }

  /** Some selection of `paths` contributes `f`. */
  ghost predicate AnyContributes(fs: Fs, paths: seq<Path>, scopes: Scopes, f: Path)
  {
    exists i :: 0 <= i < |paths| && Contributes(fs, paths[i], scopes, f)
  }

  /** Some selection of `paths` fails. */
  ghost predicate AnyFails(fs: Fs, paths: seq<Path>, scopes: Scopes)
  {
    exists i :: 0 <= i < |paths| && Fails(fs, paths[i], scopes)
  }

  lemma ContributesSnoc(fs: Fs, paths: seq<Path>, scopes: Scopes, f: Path)
    requires paths != []
    ensures AnyContributes(fs, paths, scopes, f) <==>
      AnyContributes(fs, paths[..|paths| - 1], scopes, f) || Contributes(fs, paths[|paths| - 1], scopes, f)
  {
    var q := paths[..|paths| - 1];
    if AnyContributes(fs, paths, scopes, f) {
      var i :| 0 <= i < |paths| && Contributes(fs, paths[i], scopes, f);
      if i < |q| {
        assert q[i] == paths[i];
      }
    }
    if AnyContributes(fs, q, scopes, f) {
      var i :| 0 <= i < |q| && Contributes(fs, q[i], scopes, f);
      assert paths[i] == q[i];
    }
  }

  lemma FailsSnoc(fs: Fs, paths: seq<Path>, scopes: Scopes)
    requires paths != []
    ensures AnyFails(fs, paths, scopes) <==>
      AnyFails(fs, paths[..|paths| - 1], scopes) || Fails(fs, paths[|paths| - 1], scopes)
  {
    var q := paths[..|paths| - 1];
    if AnyFails(fs, paths, scopes) {
      var i :| 0 <= i < |paths| && Fails(fs, paths[i], scopes);
      if i < |q| {
        assert q[i] == paths[i];
      }
    }
    if AnyFails(fs, q, scopes) {
      var i :| 0 <= i < |q| && Fails(fs, q[i], scopes);
      assert paths[i] == q[i];
    }
  }

  /** The second loop throws exactly when some selection fails; every file it
      collects is contributed by a selection, and when it finishes it has
      collected every contributed file. */
  lemma {:induction false} CollectPathsMeaning(fs: Fs, paths: seq<Path>, scopes: Scopes)
    decreases |paths|
    ensures var w := CollectPaths(fs, paths, scopes);
      && (w.error.Some? <==> AnyFails(fs, paths, scopes))
      && (forall f :: f in w.files ==> AnyContributes(fs, paths, scopes, f))
      && (w.error.None? ==> forall f :: AnyContributes(fs, paths, scopes, f) ==> f in w.files)
  {
    if paths != [] {
      var q := paths[..|paths| - 1];
      var p := paths[|paths| - 1];
      CollectPathsMeaning(fs, q, scopes);
      SelectionWalkMeaning(fs, p, scopes);
      FailsSnoc(fs, paths, scopes);
      forall f ensures AnyContributes(fs, paths, scopes, f) <==>
        AnyContributes(fs, q, scopes, f) || Contributes(fs, p, scopes, f)
      {
        ContributesSnoc(fs, paths, scopes, f);
      }
    }
  }

  /** `collectAllFiles` throws exactly when a selection does not exist or a
      walk reaches an unreadable directory; otherwise it returns exactly the
      files the selections contribute under the merged rules. */
  lemma CollectAllMeaning(fs: Fs, paths: seq<Path>)
    ensures CollectAll(fs, paths).Err? <==>
      (exists i :: 0 <= i < |paths| && Stat(fs, paths[i]).None?)
      || (GatherRules(fs, paths).Ok? &&
          exists i :: 0 <= i < |paths| && Fails(fs, paths[i], GatherRules(fs, paths).value))
    ensures CollectAll(fs, paths).Ok? ==> forall f :: f in CollectAll(fs, paths).value <==>
      exists i :: 0 <= i < |paths| && Contributes(fs, paths[i], GatherRules(fs, paths).value, f)
  {
    GatherRulesMeaning(fs, paths);
    if GatherRules(fs, paths).Ok? {
      CollectPathsMeaning(fs, paths, GatherRules(fs, paths).value);
    }
  }

  /** Every selection that is not a directory is collected as it is, and
      every other collected file lies strictly below a selected directory and
      is not ignored. */
  lemma CollectAllShape(fs: Fs, paths: seq<Path>, f: Path)
    requires CollectAll(fs, paths).Ok?
    ensures Stat(fs, f) == Some(false) && f in paths ==> f in CollectAll(fs, paths).value
    ensures f in CollectAll(fs, paths).value ==>
      (f in paths && Stat(fs, f) == Some(false))
      || exists i :: 0 <= i < |paths| && IsDirectory(fs, paths[i]) && IsStrictPrefix(paths[i], f)
                    && !Ignored(f, GatherRules(fs, paths).value)
  {
    CollectAllMeaning(fs, paths);
    var scopes := GatherRules(fs, paths).value;
    if f in paths && Stat(fs, f) == Some(false) {
      var i :| 0 <= i < |paths| && paths[i] == f;
      assert Contributes(fs, paths[i], scopes, f);
    }
    if f in CollectAll(fs, paths).value {
      var i :| 0 <= i < |paths| && Contributes(fs, paths[i], scopes, f);
      if IsDirectory(fs, paths[i]) {
        ListedShape(ReadDir(fs, paths[i]).children, paths[i], scopes, f);
      }
    }
  }

  /** Once the rules of a prefix of the selections could not be gathered, the
      rest changes nothing. */
  lemma {:induction false} GatherErrorSticks(fs: Fs, paths: seq<Path>, k: nat)
    requires k <= |paths| && GatherRules(fs, paths[..k]).Err?
    decreases |paths|
    ensures GatherRules(fs, paths) == GatherRules(fs, paths[..k])
  {
    if k == |paths| {
      TakeAll(paths);
    } else {
      var q := paths[..|paths| - 1];
      assert q[..k] == paths[..k];
      GatherErrorSticks(fs, q, k);
    }
  }

  lemma {:induction false} CollectErrorSticks(fs: Fs, paths: seq<Path>, k: nat, scopes: Scopes)
    requires k <= |paths| && CollectPaths(fs, paths[..k], scopes).error.Some?
    decreases |paths|
    ensures CollectPaths(fs, paths, scopes) == CollectPaths(fs, paths[..k], scopes)
  {
    if k == |paths| {
      TakeAll(paths);
    } else {
      var q := paths[..|paths| - 1];
      assert q[..k] == paths[..k];
      CollectErrorSticks(fs, q, k, scopes);
    }
  }

  /** `collectAllFiles(paths)`: first every selected directory's rules are
      read and merged, then every selection is collected into one list. */
  method CollectAllFiles(fs: Fs, paths: seq<Path>) returns (r: Result<seq<Path>>)
    requires WellFormed(fs.root)
    ensures r == CollectAll(fs, paths)
  {
    var ignorePatterns: Scopes := map[];
    var i := 0;
    while i < |paths|
      invariant 0 <= i <= |paths|
      invariant GatherRules(fs, paths[..i]) == Ok(ignorePatterns)
    {
      TakeSnoc(paths, i);
      var isDirectory := Stat(fs, paths[i]);
      if isDirectory.None? {
        GatherErrorSticks(fs, paths, i + 1);
        return Err(fs.missing);
      }
      if isDirectory.value {
        var patterns := CollectIgnorePatterns(fs, paths[i]);
        ignorePatterns := MergeInto(ignorePatterns, patterns);
      }
      i := i + 1;
    }
    TakeAll(paths);
    var allFiles := new FileList();
    i := 0;
    while i < |paths|
      invariant 0 <= i <= |paths|
      invariant CollectPaths(fs, paths[..i], ignorePatterns).error.None?
      invariant allFiles.paths == CollectPaths(fs, paths[..i], ignorePatterns).files
    {
      TakeSnoc(paths, i);
      ghost var w := CollectPaths(fs, paths[..i], ignorePatterns);
      ghost var e := SelectionWalk(fs, paths[i], ignorePatterns);
      var err := CollectSelection(fs, paths[i], allFiles, ignorePatterns);
      assert CollectPaths(fs, paths[..i + 1], ignorePatterns) == Walk(w.files + e.files, e.error);
      if err.Some? {
        CollectErrorSticks(fs, paths, i + 1, ignorePatterns);
        return Err(err.value);
      }
      i := i + 1;
    }
    TakeAll(paths);
    return Ok(allFiles.paths);
  }

  /** The body of the second loop of `collectAllFiles` for one selection. */
  method CollectSelection(fs: Fs, p: Path, allFiles: FileList, ignorePatterns: Scopes)
    returns (error: Option<string>)
    requires WellFormed(fs.root)
    modifies allFiles
    ensures var e := SelectionWalk(fs, p, ignorePatterns);
      allFiles.paths == old(allFiles.paths) + e.files && error == e.error
  {
    var isDirectory := Stat(fs, p);
    if isDirectory.None? {
      return Some(fs.missing);
    }
    if isDirectory.value {
      error := CollectFilesFromDirectory(fs, p, allFiles, ignorePatterns);
    } else {
      allFiles.Push(p);
      error := None;
    }
  }
}
