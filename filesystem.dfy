/** The filesystem the extension reads, as a tree: every directory lists its
    entries in a fixed enumeration order, and each call that can fail (reading
    a directory, opening or reading a file) carries its outcome. */
module FileSystem {
  import opened Wrappers
  import opened Paths

  type byte = x: int | 0 <= x < 256

  /** An entry as `readdirSync(..., { withFileTypes: true })` reports it.
      `bytes` is what opening and reading the file gives, `text` what
      `readFileSync(path, 'utf-8')` gives (already decoded). A `Special` entry
      is neither a file nor a directory: a symbolic link, socket or FIFO. */
  datatype Node =
    | File(name: string, bytes: Result<seq<byte>>, text: Result<string>)
    | Dir(name: string, listing: Listing)
    | Special(name: string)

  /** A directory's entries and what `readdirSync` gives for it: the entries,
      or the error of a directory that cannot be listed. The entries of such a
      directory can still be reached by name when it grants search without
      read permission; with no permission at all, there are none to reach. */
  datatype Listing = Entries(children: seq<Node>) | Unreadable(message: string, children: seq<Node>)

  /** A whole filesystem: the root directory, and the error text of a call on
      a path that does not exist or has the wrong kind. */
  datatype Fs = Fs(root: Node, missing: string)

  predicate UniqueNames(cs: seq<Node>)
  {
    forall i, j :: 0 <= i < j < |cs| ==> cs[i].name != cs[j].name
  }

  /** Entry names are valid path components and distinct within a directory. */
  predicate WellFormed(n: Node)
  {
    match n
    case Dir(_, l) =>
      UniqueNames(l.children)
      && forall i :: 0 <= i < |l.children| ==> ValidComponent(l.children[i].name) && WellFormed(l.children[i])
    case _ => true
  }

  /** The index of the first entry called `name`, if any. */
  function FindEntry(cs: seq<Node>, name: string): (r: Option<nat>)
    ensures r.Some? ==> (r.value < |cs| && cs[r.value].name == name
                         && forall j :: 0 <= j < r.value ==> cs[j].name != name)
    ensures r.None? ==> forall j :: 0 <= j < |cs| ==> cs[j].name != name
  {
    if cs == [] then None
    else if cs[0].name == name then Some(0)
    else match FindEntry(cs[1..], name)
      case None => None
      case Some(i) => Some(i + 1)
  }

  /** The node reached from `n` by following the components `rel`. */
  function LookupIn(n: Node, rel: Path): Option<Node>
  {
    if rel == [] then Some(n)
    else match n
      case Dir(_, l) =>
        (match FindEntry(l.children, rel[0])
         case None => None
         case Some(i) => LookupIn(l.children[i], rel[1..]))
      case _ => None
  }

  function Lookup(fs: Fs, p: Path): Option<Node>
  {
    LookupIn(fs.root, p)
  }

  /** `statSync(p).isDirectory()`, where `None` means that `statSync` throws. */
  function Stat(fs: Fs, p: Path): Option<bool>
  {
    match Lookup(fs, p)
    case None => None
    case Some(n) => Some(n.Dir?)
  }

  /** The `isDirectory` helper of `removeDuplicatePaths`: a failed `stat` counts
      as "not a directory". */
  predicate IsDirectory(fs: Fs, p: Path)
  {
    Stat(fs, p) == Some(true)
  }

  /** `readdirSync(p)`. */
  function ReadDir(fs: Fs, p: Path): Listing
  {
    match Lookup(fs, p)
    case Some(Dir(_, l)) => l
    case _ => Unreadable(fs.missing, [])
  }

  /** `readFileSync(p, 'utf-8')`. */
  function ReadText(fs: Fs, p: Path): Result<string>
  {
    match Lookup(fs, p)
    case Some(File(_, _, t)) => t
    case _ => Err(fs.missing)
  }

  /** `openSync` followed by `readSync` of the file's bytes. */
  function ReadBytes(fs: Fs, p: Path): Result<seq<byte>>
  {
    match Lookup(fs, p)
    case Some(File(_, b, _)) => b
    case _ => Err(fs.missing)
  }

  /** In a well-formed tree, the path `dir + [c.name]` of an entry `c` of the
      directory at `dir` leads to `c` itself. */
  lemma {:induction false} LookupEntry(fs: Fs, dir: Path, cs: seq<Node>, i: nat, rest: Path)
    requires WellFormed(fs.root)
    requires Lookup(fs, dir).Some? && Lookup(fs, dir).value.Dir?
    requires Lookup(fs, dir).value.listing.children == cs && i < |cs|
    ensures LookupIn(fs.root, dir + [cs[i].name] + rest) == LookupIn(cs[i], rest)
  {
    LookupAppend(fs.root, dir, [cs[i].name] + rest);
    assert dir + [cs[i].name] + rest == dir + ([cs[i].name] + rest);
    var d := Lookup(fs, dir).value;
    WellFormedLookup(fs.root, dir);
    assert FindEntry(cs, cs[i].name) == Some(i);
    assert ([cs[i].name] + rest)[1..] == rest;
  }

  /** A directory that cannot be listed still lets its entries be reached by
      name: `readdirSync` of it fails, while `statSync` and the reads of an
      entry's path see that entry. */
  lemma UnlistableEntryReachable(fs: Fs, dir: Path, m: string, cs: seq<Node>, i: nat)
    requires WellFormed(fs.root)
    requires Lookup(fs, dir).Some? && Lookup(fs, dir).value.Dir?
    requires Lookup(fs, dir).value.listing == Unreadable(m, cs) && i < |cs|
    ensures ReadDir(fs, dir) == Unreadable(m, cs)
    ensures Lookup(fs, dir + [cs[i].name]) == Some(cs[i])
    ensures Stat(fs, dir + [cs[i].name]) == Some(cs[i].Dir?)
    ensures cs[i].File? ==> ReadText(fs, dir + [cs[i].name]) == cs[i].text
                            && ReadBytes(fs, dir + [cs[i].name]) == cs[i].bytes
  {
    LookupEntry(fs, dir, cs, i, []);
    assert dir + [cs[i].name] + [] == dir + [cs[i].name];
  }

  /** Following a path piecewise. */
  lemma {:induction false} LookupAppend(n: Node, a: Path, b: Path)
    requires LookupIn(n, a).Some?
    ensures LookupIn(n, a + b) == LookupIn(LookupIn(n, a).value, b)
  {
    if a == [] {
      assert a + b == b;
    } else {
      assert (a + b)[0] == a[0] && (a + b)[1..] == a[1..] + b;
      match n
      case Dir(_, l) =>
        var i := FindEntry(l.children, a[0]).value;
        LookupAppend(l.children[i], a[1..], b);
    }
  }

  /** Every node of a well-formed tree is well-formed. */
  lemma {:induction false} WellFormedLookup(n: Node, p: Path)
    requires WellFormed(n) && LookupIn(n, p).Some?
    ensures WellFormed(LookupIn(n, p).value)
  {
    if p != [] {
      match n
      case Dir(_, l) =>
        var i := FindEntry(l.children, p[0]).value;
        WellFormedLookup(l.children[i], p[1..]);
    }
  }
}
