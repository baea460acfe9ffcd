/** The directory tree printed at the head of the output
    (`generateDirectoryTree` and `customDirectoryTree`). */
module Tree {
  import opened Wrappers
  import opened Strings
  import opened Paths
  import opened FileSystem
  import opened Ignore
  import opened Seqs

  const Tee: string := "├── "
  const Elbow: string := "└── "
  const Pipe: string := "│   "
  const Blank: string := "    "
  /** Appended to the line of a file whose path is in `includedFiles`. */
  const Marker: string := " [已输出详细内容✅]"
  /** Starts the line written when a directory cannot be read. */
  const ReadDirError: string := "错误：无法读取目录 - "

  /** `lines` with a newline after each. */
  function Unlines(lines: seq<string>): string
  {
    if lines == [] then [] else lines[0] + "\n" + Unlines(lines[1..])
  }

  /** The subdirectories of `dir` that the tree shows: directory entries whose
      path is not ignored, in enumeration order. */
  function Dirs(cs: seq<Node>, dir: Path, scopes: Scopes): (r: seq<Node>)
    ensures |r| <= |cs|
    ensures forall i :: 0 <= i < |r| ==> r[i] in cs && r[i].Dir?
  {
    if cs == [] then []
    else (if cs[0].Dir? && !Ignored(dir + [cs[0].name], scopes) then [cs[0]] else []) + Dirs(cs[1..], dir, scopes)
  }

  /** The files of `dir` that the tree shows: plain-file entries whose path is
      not ignored, in enumeration order. Other entries (links and the like)
      are neither. */
  function Files(cs: seq<Node>, dir: Path, scopes: Scopes): (r: seq<Node>)
    ensures |r| <= |cs|
  {
    if cs == [] then []
    else (if cs[0].File? && !Ignored(dir + [cs[0].name], scopes) then [cs[0]] else []) + Files(cs[1..], dir, scopes)
  }

  function Size(l: Listing): nat
  {
    if l.Entries? then |l.children| + 1 else 0
  }

  /** The lines of `customDirectoryTree(dir, prefix, scopes, included)` when
      `readdirSync(dir)` gives `l`. */
  function TreeLines(l: Listing, dir: Path, prefix: string, scopes: Scopes, included: seq<Path>): (r: seq<string>)
    decreases l, Size(l)
    ensures |r| >= 1 && r[0] == prefix + Basename(dir) + "/"
  {
    var header := prefix + Basename(dir) + "/";
    match l
    case Unreadable(m, _) => [header, prefix + ReadDirError + m]
    case Entries(cs) =>
      [header] + DirBlocks(l, dir, prefix, scopes, included, 0)
      + FileLines(Files(cs, dir, scopes), dir, prefix, included, 0)
  }

  /** The lines of the subdirectories from the `k`-th on. A subdirectory's
      block is its own tree drawn with the longer prefix, whose first line
      loses only the characters of `prefix` and gets the branch in front. */
  function DirBlocks(parent: Listing, dir: Path, prefix: string, scopes: Scopes, included: seq<Path>, k: nat)
    : seq<string>
    requires parent.Entries?
    decreases parent, |Dirs(parent.children, dir, scopes)| - k
  {
    var ds := Dirs(parent.children, dir, scopes);
    if k >= |ds| then []
    else
      assert ds[k] in parent.children;
      var isLast := k == |ds| - 1 && |Files(parent.children, dir, scopes)| == 0;
      var child := TreeLines(ds[k].listing, dir + [ds[k].name], prefix + (if isLast then Blank else Pipe),
                             scopes, included);
      [prefix + (if isLast then Elbow else Tee) + child[0][|prefix|..]] + child[1..]
      + DirBlocks(parent, dir, prefix, scopes, included, k + 1)
  }

  /** The lines of the files from the `k`-th on. */
  function FileLines(files: seq<Node>, dir: Path, prefix: string, included: seq<Path>, k: nat): seq<string>
    decreases |files| - k
  {
    if k >= |files| then []
    else [FileLine(files, dir, prefix, included, k)] + FileLines(files, dir, prefix, included, k + 1)
  }

  function FileLine(files: seq<Node>, dir: Path, prefix: string, included: seq<Path>, k: nat): string
    requires k < |files|
  {
    prefix + (if k == |files| - 1 then Elbow else Tee) + files[k].name
    + (if dir + [files[k].name] in included then Marker else "")
  }

  // ---------------------------------------------------------------------------
  // Properties of the tree
  // ---------------------------------------------------------------------------

  /** Every line of a tree drawn with `prefix` starts with `prefix`. */
  lemma {:induction false} TreeLinesPrefixed(l: Listing, dir: Path, prefix: string, scopes: Scopes, included: seq<Path>)
    decreases l, Size(l)
    ensures forall i :: 0 <= i < |TreeLines(l, dir, prefix, scopes, included)| ==>
      StartsWith(TreeLines(l, dir, prefix, scopes, included)[i], prefix)
  {
    var r := TreeLines(l, dir, prefix, scopes, included);
    match l
    case Unreadable(m, _) =>
      assert r[1] == prefix + (ReadDirError + m);
    case Entries(cs) =>
      var d := DirBlocks(l, dir, prefix, scopes, included, 0);
      var f := FileLines(Files(cs, dir, scopes), dir, prefix, included, 0);
      DirBlocksPrefixed(l, dir, prefix, scopes, included, 0);
      var files := Files(cs, dir, scopes);
      FileLinesShape(files, dir, prefix, included, 0);
      forall i | 0 <= i < |f| ensures StartsWith(f[i], prefix) {
        assert f[i] == FileLine(files, dir, prefix, included, i);
        ConcatAssoc(prefix, if i == |files| - 1 then Elbow else Tee, files[i].name);
        StartsWithShorter(FileLine(files, dir, prefix, included, i), prefix, (if i == |files| - 1 then Elbow else Tee) + files[i].name);
      }
      assert StartsWith(r[0], prefix) by { StartsWithConcat(prefix, Basename(dir) + "/"); ConcatAssoc(prefix, Basename(dir), "/"); }
      AllOfThree(r[0], d, f, line => StartsWith(line, prefix));
  }

  lemma {:induction false} DirBlocksPrefixed(parent: Listing, dir: Path, prefix: string, scopes: Scopes,
                                             included: seq<Path>, k: nat)
    requires parent.Entries?
    decreases parent, |Dirs(parent.children, dir, scopes)| - k
    ensures forall i :: 0 <= i < |DirBlocks(parent, dir, prefix, scopes, included, k)| ==>
      StartsWith(DirBlocks(parent, dir, prefix, scopes, included, k)[i], prefix)
  {
    var ds := Dirs(parent.children, dir, scopes);
    if k < |ds| {
      assert ds[k] in parent.children;
      var isLast := k == |ds| - 1 && |Files(parent.children, dir, scopes)| == 0;
      var np := prefix + (if isLast then Blank else Pipe);
      var child := TreeLines(ds[k].listing, dir + [ds[k].name], np, scopes, included);
      var first := prefix + (if isLast then Elbow else Tee) + child[0][|prefix|..];
      var rest := DirBlocks(parent, dir, prefix, scopes, included, k + 1);
      TreeLinesPrefixed(ds[k].listing, dir + [ds[k].name], np, scopes, included);
      DirBlocksPrefixed(parent, dir, prefix, scopes, included, k + 1);
      var r := DirBlocks(parent, dir, prefix, scopes, included, k);
      assert r == [first] + child[1..] + rest;
      assert StartsWith(first, prefix) by {
        ConcatAssoc(prefix, if isLast then Elbow else Tee, child[0][|prefix|..]);
        StartsWithConcat(prefix, (if isLast then Elbow else Tee) + child[0][|prefix|..]);
      }
      forall i | 0 <= i < |child[1..]| ensures StartsWith(child[1..][i], prefix) {
        assert child[1..][i] == child[i + 1];
        StartsWithShorter(child[i + 1], prefix, if isLast then Blank else Pipe);
      }
      AllOfThree(first, child[1..], rest, line => StartsWith(line, prefix));
    }
  }

  /** There is one line per file; the last gets `└── `, the others `├── `,
      and a line ends with the marker exactly when the file's path is among
      the included files. */
  lemma {:induction false} FileLinesShape(files: seq<Node>, dir: Path, prefix: string, included: seq<Path>, k: nat)
    requires k <= |files|
    decreases |files| - k
    ensures |FileLines(files, dir, prefix, included, k)| == |files| - k
    ensures forall j :: k <= j < |files| ==>
      FileLines(files, dir, prefix, included, k)[j - k] == FileLine(files, dir, prefix, included, j)
  {
    if k < |files| {
      FileLinesShape(files, dir, prefix, included, k + 1);
      var r := FileLines(files, dir, prefix, included, k);
      var t := FileLines(files, dir, prefix, included, k + 1);
      assert r == [FileLine(files, dir, prefix, included, k)] + t;
      forall j | k < j < |files| ensures r[j - k] == FileLine(files, dir, prefix, included, j) {
        assert r[j - k] == t[j - (k + 1)];
      }
    }
  }

  /** The text of one file line: the branch and the name, with the marker
      after them exactly when the file's path is among the included files. */
  lemma FileLineText(files: seq<Node>, dir: Path, prefix: string, included: seq<Path>, k: nat)
    requires k < |files|
    ensures var head := prefix + (if k == |files| - 1 then Elbow else Tee) + files[k].name;
      var line := FileLine(files, dir, prefix, included, k);
      && (line == head + Marker <==> dir + [files[k].name] in included)
      && (line == head <==> dir + [files[k].name] !in included)
  {
    var head := prefix + (if k == |files| - 1 then Elbow else Tee) + files[k].name;
    assert |head + Marker| > |head|;
  }

  /** The first line of the block of the `k`-th subdirectory: the branch,
      then the child's own continuation segment, then its name. The
      subdirectory takes `└── ` only when it is the last one and no file
      follows. */
  lemma DirBlockHead(parent: Listing, dir: Path, prefix: string, scopes: Scopes, included: seq<Path>, k: nat)
    requires parent.Entries? && k < |Dirs(parent.children, dir, scopes)|
    ensures var ds := Dirs(parent.children, dir, scopes);
      var isLast := k == |ds| - 1 && |Files(parent.children, dir, scopes)| == 0;
      var r := DirBlocks(parent, dir, prefix, scopes, included, k);
      |r| >= 1 && r[0] == prefix + (if isLast then Elbow + Blank else Tee + Pipe) + ds[k].name + "/"
  {
    var ds := Dirs(parent.children, dir, scopes);
    assert ds[k] in parent.children;
    var isLast := k == |ds| - 1 && |Files(parent.children, dir, scopes)| == 0;
    var seg := if isLast then Blank else Pipe;
    var conn := if isLast then Elbow else Tee;
    var child := TreeLines(ds[k].listing, dir + [ds[k].name], prefix + seg, scopes, included);
    HeaderRest(prefix, seg, ds[k].name, child[0]);
    var name := ds[k].name;
    ConcatAssoc(prefix + conn, seg, name + "/");
    ConcatAssoc(prefix + conn + seg, name, "/");
    ConcatAssoc(prefix, conn, seg);
  }

  /** A child's header line without the parent's prefix. */
  lemma HeaderRest(prefix: string, seg: string, name: string, header: string)
    requires header == prefix + seg + name + "/"
    ensures |header| >= |prefix| && header[|prefix|..] == seg + (name + "/")
  {
    ConcatAssoc(prefix, seg, name);
    ConcatAssoc(prefix, seg + name, "/");
    ConcatAssoc(seg, name, "/");
    DropConcat(prefix, seg + (name + "/"));
  }

  /** The shown subdirectories are exactly the directory entries whose path
      is not ignored. */
  lemma {:induction false} DirsMeaning(cs: seq<Node>, dir: Path, scopes: Scopes)
    ensures forall c :: c in Dirs(cs, dir, scopes) <==> c in cs && c.Dir? && !Ignored(dir + [c.name], scopes)
  {
    if cs != [] {
      DirsMeaning(cs[1..], dir, scopes);
      assert forall c :: c in cs <==> c == cs[0] || c in cs[1..];
    }
  }

  /** The shown files are exactly the plain-file entries whose path is not
      ignored. */
  lemma {:induction false} FilesMeaning(cs: seq<Node>, dir: Path, scopes: Scopes)
    ensures forall c :: c in Files(cs, dir, scopes) <==> c in cs && c.File? && !Ignored(dir + [c.name], scopes)
  {
    if cs != [] {
      FilesMeaning(cs[1..], dir, scopes);
      assert forall c :: c in cs <==> c == cs[0] || c in cs[1..];
    }
  }

  lemma {:induction false} UnlinesAppend(a: seq<string>, b: seq<string>)
    ensures Unlines(a + b) == Unlines(a) + Unlines(b)
  {
    if a == [] {
      assert a + b == b;
    } else {
      assert (a + b)[0] == a[0] && (a + b)[1..] == a[1..] + b;
      UnlinesAppend(a[1..], b);
      ConcatAssoc(a[0] + "\n", Unlines(a[1..]), Unlines(b));
    }
  }

  /** Dropping `n` characters from the text of lines drops them from the
      first line, when it is that long. */
  lemma UnlinesDrop(c: seq<string>, n: nat)
    requires |c| >= 1 && n <= |c[0]|
    ensures |Unlines(c)| >= n && Unlines(c)[n..] == Unlines([c[0][n..]] + c[1..])
  {
    var t := [c[0][n..]] + c[1..];
    assert t[0] == c[0][n..] && t[1..] == c[1..];
    assert c[0] == c[0][..n] + c[0][n..];
    ConcatAssoc(c[0][..n], c[0][n..], "\n");
    ConcatAssoc(c[0][..n], c[0][n..] + "\n", Unlines(c[1..]));
    DropConcat(c[0][..n], c[0][n..] + "\n" + Unlines(c[1..]));
  }

  // ---------------------------------------------------------------------------
  // customDirectoryTree and generateDirectoryTree
  // ---------------------------------------------------------------------------

  /** `customDirectoryTree(dirPath, prefix, ignorePatterns, includedFiles)`:
      the header, then each shown subdirectory's tree spliced in, then each
      shown file's line; the error line instead when the directory cannot be
      read. */
  method CustomDirectoryTree(fs: Fs, dirPath: Path, prefix: string, ignorePatterns: Scopes,
                             includedFiles: seq<Path>) returns (output: string)
    requires WellFormed(fs.root)
    decreases ReadDir(fs, dirPath), 2
    ensures output == Unlines(TreeLines(ReadDir(fs, dirPath), dirPath, prefix, ignorePatterns, includedFiles))
  {
    var dirName := Basename(dirPath);
    output := prefix + dirName + "/\n";
    var entries := ReadDir(fs, dirPath);
    if entries.Unreadable? {
      output := output + (prefix + ReadDirError + entries.message + "\n");
      HeaderNewline(prefix + dirName);
      TwoLines(prefix + dirName + "/", prefix + ReadDirError + entries.message);
      return;
    }
    var cs := entries.children;
    var filteredFiles := Files(cs, dirPath, ignorePatterns);
    output := DrawDirs(fs, dirPath, entries, prefix, ignorePatterns, includedFiles, output);
    output := DrawFiles(dirPath, filteredFiles, prefix, includedFiles, output);
    TreeText(entries, dirPath, prefix, ignorePatterns, includedFiles);
  }

  /** `filteredDirs.forEach(...)`: appends the block of each shown
      subdirectory. */
  method DrawDirs(fs: Fs, dirPath: Path, entries: Listing, prefix: string, ignorePatterns: Scopes,
                  includedFiles: seq<Path>, start: string) returns (output: string)
    requires WellFormed(fs.root) && entries.Entries? && ReadDir(fs, dirPath) == entries
    decreases entries, 1
    ensures output == start + Unlines(DirBlocks(entries, dirPath, prefix, ignorePatterns, includedFiles, 0))
  {
    var filteredDirs := Dirs(entries.children, dirPath, ignorePatterns);
    ghost var total := start + Unlines(DirBlocks(entries, dirPath, prefix, ignorePatterns, includedFiles, 0));
    output := start;
    var index := 0;
    while index < |filteredDirs|
      invariant 0 <= index <= |filteredDirs|
      invariant output + Unlines(DirBlocks(entries, dirPath, prefix, ignorePatterns, includedFiles, index)) == total
    {
      output := DrawDir(fs, dirPath, entries, prefix, ignorePatterns, includedFiles, index, output);
      index := index + 1;
    }
    AppendEmpty(output);
  }

  /** The `forEach` callback for the `index`-th shown subdirectory: its tree
      drawn with the longer prefix, spliced in after the branch. */
  method DrawDir(fs: Fs, dirPath: Path, entries: Listing, prefix: string, ignorePatterns: Scopes,
                 includedFiles: seq<Path>, index: nat, start: string) returns (output: string)
    requires WellFormed(fs.root) && entries.Entries? && ReadDir(fs, dirPath) == entries
    requires index < |Dirs(entries.children, dirPath, ignorePatterns)|
    decreases entries, 0
    ensures output + Unlines(DirBlocks(entries, dirPath, prefix, ignorePatterns, includedFiles, index + 1))
            == start + Unlines(DirBlocks(entries, dirPath, prefix, ignorePatterns, includedFiles, index))
  {
    var cs := entries.children;
    var filteredDirs := Dirs(cs, dirPath, ignorePatterns);
    var filteredFiles := Files(cs, dirPath, ignorePatterns);
    var dir := filteredDirs[index];
    var isLast := index == |filteredDirs| - 1 && |filteredFiles| == 0;
    var newPrefix := prefix + (if isLast then Blank else Pipe);
    var linePrefix := prefix + (if isLast then Elbow else Tee);
    var fullPath := JoinPath(dirPath, dir.name);
    ChildListing(fs, dirPath, cs, dir);
    var childOutput := CustomDirectoryTree(fs, fullPath, newPrefix, ignorePatterns, includedFiles);
    DirBlockText(entries, dirPath, prefix, ignorePatterns, includedFiles, index, childOutput);
    ghost var rest := Unlines(DirBlocks(entries, dirPath, prefix, ignorePatterns, includedFiles, index + 1));
    ConcatAssoc(start, linePrefix + childOutput[|prefix|..], rest);
    output := start + (linePrefix + childOutput[|prefix|..]);
  }

  /** `filteredFiles.forEach(...)`: appends the line of each shown file. */
  method DrawFiles(dirPath: Path, filteredFiles: seq<Node>, prefix: string, includedFiles: seq<Path>, start: string)
    returns (output: string)
    ensures output == start + Unlines(FileLines(filteredFiles, dirPath, prefix, includedFiles, 0))
  {
    ghost var total := start + Unlines(FileLines(filteredFiles, dirPath, prefix, includedFiles, 0));
    output := start;
    var index := 0;
    while index < |filteredFiles|
      invariant 0 <= index <= |filteredFiles|
      invariant output + Unlines(FileLines(filteredFiles, dirPath, prefix, includedFiles, index)) == total
    {
      var file := filteredFiles[index];
      var isLast := index == |filteredFiles| - 1;
      var fullPath := JoinPath(dirPath, file.name);
      var isIncluded := fullPath in includedFiles;
      var marker := if isIncluded then Marker else "";
      ghost var line := FileLine(filteredFiles, dirPath, prefix, includedFiles, index);
      ghost var rest := Unlines(FileLines(filteredFiles, dirPath, prefix, includedFiles, index + 1));
      ConcatAssoc(output, line + "\n", rest);
      assert prefix + (if isLast then Elbow else Tee) + file.name + marker == line;
      output := output + (prefix + (if isLast then Elbow else Tee) + file.name + marker + "\n");
      index := index + 1;
    }
    AppendEmpty(output);
  }

  /** The text of a readable directory's tree: header, blocks, file lines. */
  lemma TreeText(l: Listing, dir: Path, prefix: string, scopes: Scopes, included: seq<Path>)
    requires l.Entries?
    ensures Unlines(TreeLines(l, dir, prefix, scopes, included)) ==
      prefix + Basename(dir) + "/\n" + Unlines(DirBlocks(l, dir, prefix, scopes, included, 0))
      + Unlines(FileLines(Files(l.children, dir, scopes), dir, prefix, included, 0))
  {
    var d := DirBlocks(l, dir, prefix, scopes, included, 0);
    var f := FileLines(Files(l.children, dir, scopes), dir, prefix, included, 0);
    var h := prefix + Basename(dir) + "/";
    assert TreeLines(l, dir, prefix, scopes, included) == [h] + d + f;
    ThreeParts(h, d, f);
    HeaderNewline(prefix + Basename(dir));
  }

  lemma HeaderNewline(s: string)
    ensures s + "/" + "\n" == s + "/\n"
  {
    ConcatAssoc(s, "/", "\n");
    assert "/" + "\n" == "/\n";
  }

  lemma TwoLines(a: string, b: string)
    ensures Unlines([a, b]) == a + "\n" + (b + "\n")
  {
    assert [a, b][1..] == [b];
    assert Unlines([b]) == b + "\n";
  }

  lemma ThreeParts(h: string, d: seq<string>, f: seq<string>)
    ensures Unlines([h] + d + f) == h + "\n" + Unlines(d) + Unlines(f)
  {
    UnlinesAppend([h] + d, f);
    UnlinesAppend([h], d);
    assert Unlines([h]) == h + "\n";
  }

  /** In a well-formed tree, reading the directory of a shown subdirectory
      gives that subdirectory's listing. */
  lemma ChildListing(fs: Fs, dirPath: Path, cs: seq<Node>, dir: Node)
    requires WellFormed(fs.root) && ReadDir(fs, dirPath) == Entries(cs)
    requires dir in cs && dir.Dir?
    ensures ReadDir(fs, dirPath + [dir.name]) == dir.listing
  {
    var j :| 0 <= j < |cs| && cs[j] == dir;
    LookupEntry(fs, dirPath, cs, j, []);
    AppendEmpty(dirPath + [dir.name]);
  }

  /** The text of the block of the `k`-th subdirectory, from the text of its
      own tree. */
  lemma DirBlockText(parent: Listing, dir: Path, prefix: string, scopes: Scopes, included: seq<Path>, k: nat,
                     childOutput: string)
    requires parent.Entries? && k < |Dirs(parent.children, dir, scopes)|
    requires var ds := Dirs(parent.children, dir, scopes);
      var isLast := k == |ds| - 1 && |Files(parent.children, dir, scopes)| == 0;
      childOutput == Unlines(TreeLines(ds[k].listing, dir + [ds[k].name], prefix + (if isLast then Blank else Pipe),
                                       scopes, included))
    ensures var ds := Dirs(parent.children, dir, scopes);
      var isLast := k == |ds| - 1 && |Files(parent.children, dir, scopes)| == 0;
      |childOutput| >= |prefix| &&
      Unlines(DirBlocks(parent, dir, prefix, scopes, included, k)) ==
        prefix + (if isLast then Elbow else Tee) + childOutput[|prefix|..]
        + Unlines(DirBlocks(parent, dir, prefix, scopes, included, k + 1))
  {
    var ds := Dirs(parent.children, dir, scopes);
    assert ds[k] in parent.children;
    var isLast := k == |ds| - 1 && |Files(parent.children, dir, scopes)| == 0;
    var seg := if isLast then Blank else Pipe;
    var child := TreeLines(ds[k].listing, dir + [ds[k].name], prefix + seg, scopes, included);
    HeaderRest(prefix, seg, ds[k].name, child[0]);
    BlockText(prefix + (if isLast then Elbow else Tee), child, |prefix|,
              DirBlocks(parent, dir, prefix, scopes, included, k + 1));
  }

  /** Splicing a child's text with its first `n` characters dropped. */
  lemma BlockText(lp: string, child: seq<string>, n: nat, rest: seq<string>)
    requires |child| >= 1 && n <= |child[0]|
    ensures |Unlines(child)| >= n
    ensures Unlines([lp + child[0][n..]] + child[1..] + rest) == lp + Unlines(child)[n..] + Unlines(rest)
  {
    UnlinesDrop(child, n);
    var first := lp + child[0][n..];
    UnlinesAppend([first] + child[1..], rest);
    UnlinesAppend([first], child[1..]);
    var dropped := [child[0][n..]] + child[1..];
    assert dropped[0] == child[0][n..] && dropped[1..] == child[1..];
    ConcatAssoc(lp, child[0][n..] + "\n", Unlines(child[1..]));
    assert Unlines([first]) == first + "\n";
    ConcatAssoc(lp, child[0][n..], "\n");
  }

  /** `path.basename` of a path string: its last non-empty segment. */
  function StringBasename(s: string): string
  {
    var parts := NonEmpty(Split(s, '/'));
    if parts == [] then [] else parts[|parts| - 1]
  }

  /** `generateDirectoryTree(dirPath, includedFiles)`: the tree of `dirPath`
      drawn with an empty prefix under the rules of `dirPath` and its
      ancestors. A string that is not an absolute path (the empty string that
      `findCommonParentDirectory` can return) names no directory the model
      can read. */
  function TreeOf(fs: Fs, dirPath: string, included: seq<Path>): string
  {
    match ParsePath(dirPath)
    case None => Unlines([StringBasename(dirPath) + "/", ReadDirError + fs.missing])
    case Some(p) => Unlines(TreeLines(ReadDir(fs, p), p, "", ScopesOf(fs, p), included))
  }

  method GenerateDirectoryTree(fs: Fs, dirPath: string, includedFiles: seq<Path>) returns (tree: string)
    requires WellFormed(fs.root)
    ensures tree == TreeOf(fs, dirPath, includedFiles)
  {
    var p := ParsePath(dirPath);
    if p.None? {
      tree := StringBasename(dirPath) + "/\n" + (ReadDirError + fs.missing + "\n");
      HeaderNewline(StringBasename(dirPath));
      TwoLines(StringBasename(dirPath) + "/", ReadDirError + fs.missing);
      return;
    }
    var ignorePatterns := CollectIgnorePatterns(fs, p.value);
    tree := CustomDirectoryTree(fs, p.value, "", ignorePatterns, includedFiles);
  }
}
