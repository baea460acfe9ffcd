/** The `filesCombiner.combineFiles` command: the selection is reduced,
    expanded into files, sorted by depth, and written out as a directory tree
    followed by one framed block per file. */
module Assembly {
  import opened Wrappers
  import opened Strings
  import opened Paths
  import opened FileSystem
  import opened Seqs
  import opened Sorting
  import opened Selection
  import opened CommonParent
  import opened Collector
  import opened Tree
  import opened Binary

  const TreeBanner: string := "================ 目录结构 ================\n"
  const BinaryNotice: string := "[该文件为二进制文件，省略内容]\n"
  const ReadFileError: string := "错误：无法读取文件 - "
  const FailurePrefix: string := "合并文件失败: "

  /** The line naming the common parent directory, and the blank line after it. */
  function ParentBanner(commonParentDir: string): string
  {
    "================ 共同父目录: [" + commonParentDir + "] ================\n\n"
  }

  /** Everything before the first file block. */
  function Header(treeOutput: string, commonParentDir: string): string
  {
    TreeBanner + treeOutput + "\n" + ParentBanner(commonParentDir)
  }

  function StartMarker(p: Path): string
  {
    "================file content start: [" + Render(p) + "]================\n"
  }

  function EndMarker(p: Path): string
  {
    "================file content end: [" + Render(p) + "]================\n\n"
  }

  /** What stands between the two markers of a file: a notice for a binary
      file, the text with a line feed added when it does not end in one, or
      the read error. */
  function Body(fs: Fs, p: Path): (r: string)
    ensures EndsWith(r, "\n")
    ensures !IsBinary(fs, p) && ReadText(fs, p).Ok? ==>
      var c := ReadText(fs, p).value;
      && StartsWith(r, c)
      && (EndsWith(c, "\n") <==> |r| == |c|)
      && |r| <= |c| + 1
  {
    if IsBinary(fs, p) then BinaryNotice
    else match ReadText(fs, p)
      case Ok(content) =>
        if EndsWith(content, "\n") then content
        else
          assert (content + "\n")[..|content|] == content;
          content + "\n"
      case Err(e) => ReadFileError + e + "\n"
  }

  /** The framed block of one file. */
  function Block(fs: Fs, p: Path): (r: string)
    ensures |r| == |StartMarker(p)| + |Body(fs, p)| + |EndMarker(p)|
    ensures StartsWith(r, StartMarker(p)) && EndsWith(r, EndMarker(p))
    ensures r[|StartMarker(p)|..|r| - |EndMarker(p)|] == Body(fs, p)
  {
    var s, b, e := StartMarker(p), Body(fs, p), EndMarker(p);
    assert (s + b + e)[..|s|] == s;
    assert (s + b + e)[|s + b|..] == e;
    assert (s + b + e)[|s|..|s + b|] == b;
    s + b + e
  }

  /** The blocks of `paths`, in order. */
  function Blocks(fs: Fs, paths: seq<Path>): string
  {
    if paths == [] then [] else Blocks(fs, paths[..|paths| - 1]) + Block(fs, paths[|paths| - 1])
  }

  /** One iteration of the file loop: the markers and the body appended to
      `outputContent`. */
  method AppendFile(fs: Fs, filePath: Path, outputContent: string) returns (out: string)
    ensures out == outputContent + Block(fs, filePath)
  {
    var s, e := StartMarker(filePath), EndMarker(filePath);
    var binary := IsBinaryFile(fs, filePath);
    if binary {
      out := outputContent + s;
      out := out + BinaryNotice;
      out := out + e;
      ConcatAssoc(outputContent, s, BinaryNotice);
    } else {
      var content := ReadText(fs, filePath);
      if content.Ok? {
        out := outputContent + s;
        out := out + content.value;
        if !EndsWith(content.value, "\n") {
          out := out + "\n";
          ConcatAssoc(outputContent + s, content.value, "\n");
        }
        out := out + e;
      } else {
        out := outputContent + s;
        out := out + (ReadFileError + content.error + "\n");
        out := out + e;
      }
      ConcatAssoc(outputContent, s, Body(fs, filePath));
    }
    ConcatAssoc(outputContent, s + Body(fs, filePath), e);
  }

  /** The loop over `sortedPaths`. */
  method AppendFileContents(fs: Fs, sortedPaths: seq<Path>, init: string) returns (outputContent: string)
    ensures outputContent == init + Blocks(fs, sortedPaths)
  {
    outputContent := init;
    for i := 0 to |sortedPaths|
      invariant outputContent == init + Blocks(fs, sortedPaths[..i])
    {
      TakeSnoc(sortedPaths, i);
      ConcatAssoc(init, Blocks(fs, sortedPaths[..i]), Block(fs, sortedPaths[i]));
      outputContent := AppendFile(fs, sortedPaths[i], outputContent);
    }
    TakeAll(sortedPaths);
  }

  // ---------------------------------------------------------------------------
  // The command
  // ---------------------------------------------------------------------------

  /** How the command ends: the information message for an empty
      selection, the error message of a failure, or the combined document
      and the number of files it holds. */
  datatype Outcome = NoSelection | Failed(message: string) | Combined(content: string, fileCount: nat)

  /** The selection the command works on: the selected files, or the clicked
      entry alone when nothing is selected. */
  function Chosen(uri: Option<Path>, selectedFiles: seq<Path>): Option<seq<Path>>
  {
    if selectedFiles != [] then Some(selectedFiles)
    else match uri
      case Some(u) => Some([u])
      case None => None
  }

  /** The command as a function of the file system and its arguments. */
  function CombineFiles(fs: Fs, uri: Option<Path>, selectedFiles: seq<Path>): Outcome
  {
    match Chosen(uri, selectedFiles)
    case None => NoSelection
    case Some(selected) =>
      var processedPaths := RemoveDuplicates(fs, selected);
      var commonParentDir := CommonParentDirectory(processedPaths);
      match CollectAll(fs, processedPaths)
      case Err(e) => Failed(FailurePrefix + e)
      case Ok(allFiles) =>
        var sortedPaths := SortFilesByDepth(allFiles);
        Combined(Header(TreeOf(fs, commonParentDir, sortedPaths), commonParentDir) + Blocks(fs, sortedPaths),
                 |allFiles|)
  }

  /** The command handler. */
  method CombineFilesCommand(fs: Fs, uri: Option<Path>, selectedFiles: seq<Path>) returns (r: Outcome)
    requires WellFormed(fs.root)
    ensures r == CombineFiles(fs, uri, selectedFiles)
  {
    var selected := selectedFiles;
    if |selected| == 0 {
      if uri.Some? {
        selected := [uri.value];
      } else {
        return NoSelection;
      }
    }
    var processedPaths := RemoveDuplicatePaths(fs, selected);
    var commonParentDir := FindCommonParentDirectory(processedPaths);
    var allFiles := CollectAllFiles(fs, processedPaths);
    if allFiles.Err? {
      return Failed(FailurePrefix + allFiles.error);
    }
    var sortedPaths := SortFilesByDepth(allFiles.value);
    var treeOutput := GenerateDirectoryTree(fs, commonParentDir, sortedPaths);
    var outputContent := TreeBanner + treeOutput + "\n";
    outputContent := outputContent + ParentBanner(commonParentDir);
    outputContent := AppendFileContents(fs, sortedPaths, outputContent);
    ConcatAssoc(Header(treeOutput, commonParentDir), Blocks(fs, sortedPaths), []);
    return Combined(outputContent, |allFiles.value|);
  }

  // ---------------------------------------------------------------------------
  // Properties
  // ---------------------------------------------------------------------------

  /** The blocks of two lists of paths are the blocks of the first followed
      by the blocks of the second. */
  lemma {:induction false} BlocksAppend(fs: Fs, a: seq<Path>, b: seq<Path>)
    ensures Blocks(fs, a + b) == Blocks(fs, a) + Blocks(fs, b)
  {
    if b == [] {
      AppendEmpty(a);
      AppendEmpty(Blocks(fs, a));
    } else {
      var b' := b[..|b| - 1];
      var x := b[|b| - 1];
      assert (a + b)[..|a + b| - 1] == a + b';
      assert (a + b)[|a + b| - 1] == x;
      BlocksAppend(fs, a, b');
      ConcatAssoc(Blocks(fs, a), Blocks(fs, b'), Block(fs, x));
    }
  }

  /** The block of the `i`-th path sits between the blocks of the paths
      before it and the blocks of the paths after it. */
  lemma BlocksAt(fs: Fs, paths: seq<Path>, i: nat)
    requires i < |paths|
    ensures Blocks(fs, paths) == Blocks(fs, paths[..i]) + Block(fs, paths[i]) + Blocks(fs, paths[i + 1..])
  {
    assert paths == paths[..i + 1] + paths[i + 1..];
    BlocksAppend(fs, paths[..i + 1], paths[i + 1..]);
    TakeSnoc(paths, i);
  }

  /** The start marker names its path: two valid paths with the same marker
      are the same path. */
  lemma StartMarkerInjective(p: Path, q: Path)
    requires ValidPath(p) && ValidPath(q) && StartMarker(p) == StartMarker(q)
    ensures p == q
  {
    var pre := "================file content start: [";
    var post := "]================\n";
    assert StartMarker(p)[|pre|..|StartMarker(p)| - |post|] == Render(p);
    assert StartMarker(q)[|pre|..|StartMarker(q)| - |post|] == Render(q);
    RenderInjective(p, q);
  }

  /** An empty selection without a clicked entry gives only the information
      message; otherwise the command fails exactly when collecting the files
      of the reduced selection fails, and the count is the number of files
      collected. */
  lemma CombineFilesOutcome(fs: Fs, uri: Option<Path>, selectedFiles: seq<Path>)
    ensures CombineFiles(fs, uri, selectedFiles).NoSelection? <==> selectedFiles == [] && uri.None?
    ensures Chosen(uri, selectedFiles).Some? ==>
      var processed := RemoveDuplicates(fs, Chosen(uri, selectedFiles).value);
      && (CombineFiles(fs, uri, selectedFiles).Failed? <==> CollectAll(fs, processed).Err?)
      && (CombineFiles(fs, uri, selectedFiles).Failed? ==>
            CombineFiles(fs, uri, selectedFiles).message == FailurePrefix + CollectAll(fs, processed).error)
      && (CombineFiles(fs, uri, selectedFiles).Combined? ==>
            CombineFiles(fs, uri, selectedFiles).fileCount == |CollectAll(fs, processed).value|)
  {
  }

  /** Whatever follows the header, the document starts with the tree banner. */
  lemma HeaderFirst(treeOutput: string, commonParentDir: string, rest: string)
    ensures StartsWith(Header(treeOutput, commonParentDir) + rest, TreeBanner)
  {
    var h := Header(treeOutput, commonParentDir);
    assert forall k :: 0 <= k < |TreeBanner| ==> (h + rest)[k] == h[k] == TreeBanner[k];
  }

  /** When `sorted` is a reordering of `all`, every file of `all` has its own
      block among the blocks of `sorted`. */
  lemma EveryFileHasItsBlock(fs: Fs, h: string, sorted: seq<Path>, all: seq<Path>)
    requires multiset(sorted) == multiset(all)
    ensures forall f :: f in all ==> exists i :: (0 <= i < |sorted| && sorted[i] == f &&
      h + Blocks(fs, sorted) == h + (Blocks(fs, sorted[..i]) + Block(fs, f) + Blocks(fs, sorted[i + 1..])))
  {
    forall f | f in all
      ensures exists i :: (0 <= i < |sorted| && sorted[i] == f &&
        h + Blocks(fs, sorted) == h + (Blocks(fs, sorted[..i]) + Block(fs, f) + Blocks(fs, sorted[i + 1..])))
    {
      assert f in multiset(sorted);
      var i :| 0 <= i < |sorted| && sorted[i] == f;
      BlocksAt(fs, sorted, i);
    }
  }

  /** The files of the combined document, in the order their blocks appear:
      a reordering of the collected files by nondecreasing depth. */
  ghost predicate Layout(fs: Fs, content: string, common: string, all: seq<Path>, sorted: seq<Path>)
  {
    && multiset(sorted) == multiset(all)
    && (forall i, j :: 0 <= i < j < |sorted| ==> PathDepth(sorted[i]) <= PathDepth(sorted[j]))
    && content == Header(TreeOf(fs, common, sorted), common) + Blocks(fs, sorted)
  }

  /** A combined document starts with the tree banner and is the header and
      then one block per collected file, the files ordered by depth; every
      collected file has its block in it. */
  lemma CombinedLayout(fs: Fs, uri: Option<Path>, selectedFiles: seq<Path>)
    requires CombineFiles(fs, uri, selectedFiles).Combined?
    ensures var processed := RemoveDuplicates(fs, Chosen(uri, selectedFiles).value);
      var common := CommonParentDirectory(processed);
      var all := CollectAll(fs, processed).value;
      var content := CombineFiles(fs, uri, selectedFiles).content;
      && StartsWith(content, TreeBanner)
      && exists sorted: seq<Path> :: (Layout(fs, content, common, all, sorted) &&
           forall f :: f in all ==> exists i :: (0 <= i < |sorted| && sorted[i] == f &&
             content == Header(TreeOf(fs, common, sorted), common)
                        + (Blocks(fs, sorted[..i]) + Block(fs, f) + Blocks(fs, sorted[i + 1..]))))
  {
    var processed := RemoveDuplicates(fs, Chosen(uri, selectedFiles).value);
    var common := CommonParentDirectory(processed);
    var all := CollectAll(fs, processed).value;
    var sorted := SortFilesByDepth(all);
    var h := Header(TreeOf(fs, common, sorted), common);
    HeaderFirst(TreeOf(fs, common, sorted), common, Blocks(fs, sorted));
    EveryFileHasItsBlock(fs, h, sorted, all);
    assert Layout(fs, h + Blocks(fs, sorted), common, all, sorted);
  }
}
