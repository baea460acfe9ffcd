# File Combiner, modelled in Dafny

This project models the core of the "File Combiner" editor extension
(`src/extension.ts`). Its one command, `filesCombiner.combineFiles`, takes the
files and folders selected in the explorer and produces one plain-text
document. The document starts with a directory tree of the selection's
common parent directory and the name of that directory. One framed block per
collected file follows, holding the file's text, or a notice for a binary
file, or the read error.

The model has one module per concern of the source:

- `Wrappers`: `Option` and `Result`.
- `Seqs`: generic facts about sequences, and `MapFilter` (`s.map(f).filter(keep)`).
- `Strings`: the JavaScript string built-ins the code uses (`split` on one
  character, `join`, `startsWith`, `endsWith`, `trim`, `replace(/\\/g, '/')`).
- `Paths`: a path is a sequence of components and the root is `[]`. The module
  holds the Node `path` operations (`dirname`, `basename`, `join`,
  `relative`) and `isPathContained`.
- `FileSystem`: the file system as an immutable tree. Each directory lists its
  entries in enumeration order. Every failing call carries its error:
  `readdirSync`, `statSync`, `openSync`/`readSync`, and `readFileSync`. A
  directory that cannot be listed still lets its entries be reached by name,
  as search permission without read permission does.
- `Binary`: `isBinaryFile`. It copies at most 4096 bytes into an array buffer,
  scans them for control bytes, then checks the lowered extension against the
  fixed list.
- `Sorting`: the stable sorts. `sortFilesByDepth` sorts by the number of `/`
  after backslashes are replaced. `removeDuplicatePaths` first sorts by
  the string's `length`, which counts UTF-16 code units.
- `Selection`: `removeDuplicatePaths`, with all three of its loops: the
  containment search, the `toRemove` index collection and the back-to-front
  `splice`.
- `CommonParent`: `findCommonParentDirectory`, including the loop over the
  shortest component list.
- `Ignore`: `.file_combiner.ignore` files.
  - Parsing a file into patterns.
  - `collectIgnorePatterns` with its recursive climb `findIgnoreFiles`.
  - `shouldIgnorePath` with its two nested loops.
  - The merge loop of `collectAllFiles`.
- `Collector`: `collectAllFiles` and the recursive
  `collectFilesFromDirectory`. The file list they share is a class whose
  sequence field `Push` extends in place.
- `Tree`: `generateDirectoryTree` and the recursive `customDirectoryTree`.
  The tree is built line by line, as the source appends to its `output`
  string.
- `Assembly`: the command handler. A selection can end in one of three ways:
  - no selection at all;
  - a failure caught by the outer `try`, which shows an error message;
  - the combined document with its file count.

Each method that carries a loop or recursion
is proved equal to a specification function (`RemoveDuplicates`,
`CommonParentDirectory`, `ScopesOf`, `Merge`, `CollectAll`, `TreeLines`,
`Blocks`, `CombineFiles`). Lemmas then state what those functions mean, in
terms that do not follow the order of the code.

## Where the code decides

The code and the documented behaviour of the extension disagree in several
places. The model follows the code in each of them:

- A pattern matches only the relative path itself or a leading directory of
  it (`relPath === pattern`, `relPath.startsWith(pattern + '/')`). A bare file
  name does not match that name in subdirectories. A pattern that ends in `/`
  matches nothing below its own directory (`Ignore.TrailingSlashMatchesNothing`).
- Duplicate selections are all kept, because `isPathContained(p, p)` is false
  (`Paths.ContainedIrreflexive`).
- The eviction loops of `removeDuplicatePaths` never remove anything. The
  paths are scanned in order of length, and a path inside a directory is
  longer than the directory's path, so a new directory contains none of the
  paths kept before it (`Selection.EvictionNeverFires`). A directory selected
  after a path inside it is never seen.
- A `statSync` failure in `collectAllFiles`, or a `readdirSync` failure
  anywhere in the recursive walk, is not caught locally. It aborts the whole
  command with the failure message.
- Suppose several selections have parent directories that share no leading
  component, at least one of them below the root. Then
  `findCommonParentDirectory` returns `""`, the join of `[""]`, not `"/"`
  (`CommonParent.CommonParentMeaning`, `CommonParent.CommonOnlyRoot`).
  The tree is then drawn for a path that names no readable directory.
- The tree covers the whole common parent directory, minus ignored entries.
  It is not limited to the selection. Selected files are only marked.
- Only the rule files of the selected directories and their ancestors are
  read. Rule files in subdirectories found while walking have no effect.
- The tree shows only directories and plain files. The walk of
  `collectFilesFromDirectory` collects every entry that is not a directory,
  links included.
- A subdirectory's first line keeps the four extra characters of the longer
  prefix. The line reads `├── │   name/` (or `└──     name/` for the last
  one), because `.substring(prefix.length)` removes only the characters of
  the old prefix (`Tree.DirBlockHead`).

## Model

| member | source | states |
|---|---|---|
| Strings.Utf16Length | src/extension.ts:350 | `length` counts each character once, or twice when it lies outside the Basic Multilingual Plane; it equals the number of characters exactly when no character does |
| Strings.Utf16LengthConcat | src/extension.ts:350 | the `length` of a concatenation is the sum of the lengths |
| Strings.Split | src/extension.ts:226 | `split` on one character gives one more piece than there are separators, and no piece contains the separator |
| Strings.SplitJoin | src/extension.ts:168 | splitting a join on the separator gives the parts back when no part holds the separator |
| Strings.JoinSplit | src/extension.ts:191 | joining the pieces of a split on the same character gives the string back |
| Strings.SplitConcat | src/extension.ts:226 | splitting at one occurrence of the separator splits the two sides apart |
| Strings.SlashBackslashes | src/extension.ts:149 | the replacement turns every backslash into `/`, keeps every other character and the length, and leaves no backslash |
| Strings.TrimMeaning | src/extension.ts:227 | the trimmed line is a slice of the line with only whitespace outside it, and it neither starts nor ends with whitespace |
| Strings.TrimIdempotent | src/extension.ts:227 | trimming a trimmed line leaves it unchanged |
| Paths.JoinPath | src/extension.ts:222 | `path.join(dir, name)` is one component longer than `dir`, with `dir` as its `dirname` and `name` as its `basename` |
| Paths.ContainedIff | src/extension.ts:331-334 | for valid paths, `isPathContained(parent, child)` holds exactly when `parent` is a proper leading part of `child` and the first component of `child` below `parent` does not begin with `..` |
| Paths.ContainedIrreflexive | src/extension.ts:331-334 | no path contains itself |
| Paths.ContainedTransitive | src/extension.ts:331-334 | containment is transitive on valid paths |
| Paths.RelativeFromAncestor | src/extension.ts:252 | `path.relative` from an ancestor is the remaining components joined by `/` |
| Paths.RenderParse | src/extension.ts:48 | the path string of a valid path reads back as that path, so the tree is drawn from the directory a common-parent string names |
| FileSystem.UnlistableEntryReachable | src/extension.ts:281 | a directory that cannot be listed makes `readdirSync` fail, while `statSync` and the reads of an entry's path still reach that entry |
| Binary.ReadSync | src/extension.ts:109-112 | the read copies the first `min(size, 4096)` bytes of the file into the buffer, leaves the rest of the buffer as it was, and reports that count |
| Binary.IsBinaryFile | src/extension.ts:106-143 | the result is `IsBinary`: true when the file cannot be opened or read, when a scanned byte is NUL or below 32 other than 9, 10 and 13, or when the lowered extension is listed |
| Binary.IsBinaryMeaning | src/extension.ts:115-141 | an unreadable file is binary; a readable one is binary exactly when a control byte occurs among its first 4096 bytes or its lowered extension is on the list |
| Binary.ClassifyIgnoresTail | src/extension.ts:109-111 | bytes after the first 4096 never change the decision |
| Binary.Extname | src/extension.ts:125 | `path.extname` is empty or a proper suffix of the name that starts with its only dot |
| Binary.ExtnameOf | src/extension.ts:125 | the name `stem.ext` has extension `.ext` when `ext` holds no dot and the stem is not empty |
| Binary.ExtnameNoDot | src/extension.ts:125 | a name without a dot has no extension |
| Binary.Lower | src/extension.ts:125 | lowering keeps the length and lowers each character on its own |
| Sorting.SortByCorrect | src/extension.ts:147-152 | the sort returns a permutation of its input, in non-decreasing key order, keeping the input order among equal keys |
| Sorting.SortBySorted | src/extension.ts:147-152 | a list already in key order is returned unchanged |
| Sorting.Depth | src/extension.ts:149-150 | the depth of a path string is the number of `/` after backslashes are replaced, plus one |
| Sorting.SortFilesByDepth | src/extension.ts:146-153 | `sortFilesByDepth` returns a permutation of the files in non-decreasing depth, and files of equal depth keep their collected order |
| Sorting.PathDepthOfComponents | src/extension.ts:149-150 | the depth of a valid path without backslashes is its number of components plus one, and 2 for the root |
| Sorting.CountJoin | src/extension.ts:149 | a join of slash-free parts holds one `/` fewer than it has parts |
| Selection.SurrogatePairCountsTwice | src/extension.ts:350 | `/😀a` is as long as `/abc` although it has one character fewer, so the stable sort keeps the two in their selected order |
| Selection.ContainedIsLonger | src/extension.ts:331-334 | a path below a directory has a greater `length` than the directory's path |
| Selection.EvictionNeverFires | src/extension.ts:350-395 | in the length-sorted scan, the new path contains no kept path: no index is collected for removal and eviction keeps everything |
| Selection.Evict | src/extension.ts:383-395 | the entries left are exactly the kept entries that the new directory does not contain |
| Selection.ContainedIndices | src/extension.ts:385-390 | the collected indices increase, lie below the bound, and are exactly those of the entries the directory contains |
| Selection.CollectContained | src/extension.ts:385-390 | the `toRemove` loop collects exactly those indices |
| Selection.SpliceOut | src/extension.ts:393-395 | splicing increasing indices out back to front removes exactly the entries at those indices |
| Selection.KeepIsEvict | src/extension.ts:385-395 | removing the indices of the contained entries leaves the entries the directory does not contain |
| Selection.EvictContained | src/extension.ts:383-395 | the two loops together leave exactly the kept entries the new directory does not contain |
| Selection.IsContainedInKeptDirectory | src/extension.ts:358-363 | the search succeeds exactly when some kept entry is a directory containing the path |
| Selection.AddPath | src/extension.ts:353-399 | one iteration skips a path inside a kept directory, appends any other file, and otherwise evicts the entries the new directory contains and then appends it |
| Selection.RemoveDuplicatePaths | src/extension.ts:337-402 | the method returns `RemoveDuplicates`, the main loop over the length-sorted copy |
| Selection.RemoveDuplicatesCorrect | src/extension.ts:337-402 | no kept directory contains a kept path; every selected path is either kept or inside a kept directory; the result is a subsequence of the length-sorted selection |
| Selection.DedupNoNesting | src/extension.ts:353-399 | after the loop, no kept directory contains another kept path |
| Selection.DedupCovers | src/extension.ts:353-399 | every scanned path is kept or lies inside a kept directory |
| Selection.DedupWithin | src/extension.ts:353-399 | everything kept was scanned |
| Selection.DedupSubsequence | src/extension.ts:353-399 | the kept paths keep the order of the scan |
| Selection.DedupFixpoint | src/extension.ts:353-399 | a list with no nesting passes through the loop unchanged |
| Selection.RemoveDuplicatesIdempotent | src/extension.ts:337-402 | removing duplicates twice gives the same result as once |
| CommonParent.MinLength | src/extension.ts:172 | the minimum is a lower bound on every length and is the length of some list |
| CommonParent.LongestCommonPrefix | src/extension.ts:175-183 | the common components are a prefix of every list and cannot be extended by one more component shared by all |
| CommonParent.LongestUnique | src/extension.ts:175-183 | any common prefix that cannot be extended is that one |
| CommonParent.CommonComponents | src/extension.ts:175-183 | the loop with its `every` test and its `break` computes the longest common prefix of the component lists |
| CommonParent.FindCommonParentDirectory | src/extension.ts:156-192 | the method returns `CommonParentDirectory`: `""` for no path, the parent of a single path, and otherwise `/` for no common component or the common components joined by `/` |
| CommonParent.DirComponentsOf | src/extension.ts:166-169 | the components of a parent directory string are `["", ""]` for the root and `""` followed by the parent's components otherwise |
| CommonParent.CommonParentMeaning | src/extension.ts:156-192 | for two or more paths: the rendered longest common parent when it is not the root; `/` when every parent is the root; `""` otherwise |
| CommonParent.CommonBelowRoot | src/extension.ts:175-191 | parents sharing leading components `m` give the components `""` then `m` |
| CommonParent.CommonAllRoot | src/extension.ts:175-188 | when every parent is the root, the common components are `["", ""]` |
| CommonParent.CommonOnlyRoot | src/extension.ts:175-191 | when the parents share no component and one is below the root, the common components are `[""]`, whose join is `""` |
| Ignore.PatternLinesMeaning | src/extension.ts:226-228 | the kept lines are exactly the trimmed lines that are neither empty nor start with `#` |
| Ignore.ToSetMembers | src/extension.ts:230 | `new Set(patterns)` holds exactly the patterns |
| Ignore.ParsePatternsShape | src/extension.ts:225-230 | every pattern is non-empty, is no comment, is already trimmed, and is the trimmed form of some line of the file |
| Ignore.ParsePatternsConcat | src/extension.ts:226-230 | the patterns of two blocks of text joined by a line feed are the patterns of each block together |
| Ignore.RecordIgnoreFile | src/extension.ts:222-234 | the map gains the patterns of the directory's rule file when it exists and reads as text, and is otherwise unchanged |
| Ignore.FindIgnoreFiles | src/extension.ts:220-241 | the recursive climb adds the entries of the directory and of every ancestor up to the root to the map it is given |
| Ignore.CollectIgnorePatterns | src/extension.ts:216-245 | the result is `ScopesOf(basePath)` |
| Ignore.AncestorMapAt | src/extension.ts:237-240 | the climb's keys are exactly the ancestors (the path itself included) that have an entry, each mapped to that entry |
| Ignore.ScopesOfMeaning | src/extension.ts:216-245 | `collectIgnorePatterns` maps exactly the path and those of its ancestors that hold a readable rule file, each to that file's patterns |
| Ignore.ShouldIgnorePath | src/extension.ts:248-268 | the two loops return true exactly when some pattern of some scope matches the path taken relative to that scope's directory |
| Ignore.MatchesIff | src/extension.ts:252-263 | for a path below the scope's directory, a pattern matches exactly when its `/`-separated pieces are the leading components of the path below that directory |
| Ignore.TrailingSlashMatchesNothing | src/extension.ts:256-263 | a pattern ending in `/` matches no path below its directory |
| Ignore.IgnoredInherited | src/extension.ts:248-268 | under non-empty patterns of ancestor directories, everything below an ignored path is ignored too |
| Ignore.IgnoredMerge | src/extension.ts:413-418 | a path is ignored under the merged rules exactly when either set of rules ignores it |
| Ignore.AddAll | src/extension.ts:417 | the `forEach` adds every pattern to the directory's set and changes no other entry |
| Ignore.MergeEntry | src/extension.ts:414-417 | one entry creates an empty set for a new directory and then adds the patterns |
| Ignore.MergeInto | src/extension.ts:413-418 | the merge loop returns `Merge`: each directory of either map, with the union of its pattern sets |
| Collector.FileList.constructor | src/extension.ts:406 | the file list starts empty |
| Collector.FileList.Push | src/extension.ts:453 | `push` appends one path and keeps the rest |
| Collector.WalkEntriesMeaning | src/extension.ts:440-455 | the walk of a directory's entries fails exactly when a non-ignored entry leads to an unreadable directory; every file pushed is listed below a non-ignored entry; without an error, every listed file is pushed |
| Collector.EntryWalkMeaning | src/extension.ts:441-454 | what one entry contributes: nothing when ignored, its own path unless it is a directory, otherwise its walk |
| Collector.WalkListingMeaning | src/extension.ts:437-456 | a directory whose `readdirSync` fails makes the walk fail; otherwise the statement about its entries holds |
| Collector.ListedShape | src/extension.ts:441-453 | every collected file lies strictly below the walked directory and is not ignored |
| Collector.WalkErrorSticks | src/extension.ts:438-455 | once an entry fails, the entries after it change nothing |
| Collector.CollectEntries | src/extension.ts:440-455 | the loop over the entries pushes exactly the files of their walk and reports its error |
| Collector.CollectEntry | src/extension.ts:441-454 | one iteration pushes the files of one entry's walk and reports its error |
| Collector.CollectFilesFromDirectory | src/extension.ts:437-456 | the recursion pushes exactly the files of the directory's walk, in order, and propagates the first `readdirSync` failure |
| Collector.GatherRulesMeaning | src/extension.ts:410-420 | the rules are gathered exactly when every selection exists, and then a path is ignored exactly when the rules of some selected directory ignore it |
| Collector.GatherErrorSticks | src/extension.ts:410-420 | after a failed `statSync`, the selections after it change nothing |
| Collector.SelectionWalkMeaning | src/extension.ts:424-430 | a missing selection fails; a selected directory contributes its walk; any other selection contributes itself |
| Collector.CollectSelection | src/extension.ts:424-430 | one iteration of the second loop pushes exactly what the selection contributes |
| Collector.CollectPathsMeaning | src/extension.ts:423-431 | the second loop fails exactly when some selection fails; every file pushed is contributed by some selection; without an error, every contributed file is pushed |
| Collector.CollectErrorSticks | src/extension.ts:423-431 | after a failing selection, the selections after it change nothing |
| Collector.CollectAllMeaning | src/extension.ts:405-434 | `collectAllFiles` throws exactly when a selection is missing or a selected directory's walk fails; otherwise its files are exactly those the selections contribute under the merged rules |
| Collector.CollectAllShape | src/extension.ts:405-434 | each selected file is collected; each collected path is a selected file or lies strictly below a selected directory and is not ignored |
| Collector.CollectAllFiles | src/extension.ts:405-434 | the method returns `CollectAll` |
| Tree.Dirs | src/extension.ts:282-289 | the shown subdirectories are directory entries of the listing |
| Tree.DirsMeaning | src/extension.ts:282-289 | an entry is shown as a subdirectory exactly when it is a directory whose path is not ignored |
| Tree.FilesMeaning | src/extension.ts:283-295 | an entry is shown as a file exactly when it is a plain file whose path is not ignored |
| Tree.TreeLines | src/extension.ts:277-278 | the first line of a tree is the prefix, the directory's base name and `/` |
| Tree.TreeText | src/extension.ts:277-324 | a readable directory's text is its header line, then the subdirectory blocks, then the file lines |
| Tree.TreeLinesPrefixed | src/extension.ts:271-328 | every line of a tree drawn with a prefix starts with that prefix |
| Tree.DirBlocksPrefixed | src/extension.ts:298-308 | every line of the subdirectory blocks starts with the prefix |
| Tree.DirBlockHead | src/extension.ts:299-307 | a subdirectory's first line is the prefix, the branch, the four characters of the longer prefix, then the name and `/` |
| Tree.DirBlockText | src/extension.ts:298-308 | a subdirectory's block is its own tree drawn with the longer prefix, with the branch in place of the old prefix |
| Tree.FileLinesShape | src/extension.ts:311-322 | there is one file line per shown file, in enumeration order |
| Tree.FileLineText | src/extension.ts:312-321 | a file line is the prefix, `└── ` for the last file or `├── ` before it, and the name, followed by the marker exactly when the file is among the included files |
| Tree.DrawFiles | src/extension.ts:311-322 | the file loop appends exactly the file lines |
| Tree.DrawDir | src/extension.ts:299-307 | one iteration appends one subdirectory's block |
| Tree.DrawDirs | src/extension.ts:298-308 | the subdirectory loop appends exactly the subdirectory blocks |
| Tree.CustomDirectoryTree | src/extension.ts:271-328 | the output is the text of `TreeLines`; an unreadable directory gives its header and the error line |
| Tree.GenerateDirectoryTree | src/extension.ts:195-213 | the tree is drawn with an empty prefix, under the rules of the directory and its ancestors |
| Assembly.Body | src/extension.ts:61-83 | the body always ends in a line feed; for readable text it starts with the text and adds a line feed exactly when the text lacks one |
| Assembly.Block | src/extension.ts:62-83 | a block is the start marker, the body and the end marker, and the body can be cut back out of it |
| Assembly.StartMarkerInjective | src/extension.ts:70 | two different files never share a start marker |
| Assembly.AppendFile | src/extension.ts:59-84 | one iteration of the file loop appends exactly that file's block |
| Assembly.AppendFileContents | src/extension.ts:58-85 | the file loop appends the blocks of the sorted files in order |
| Assembly.BlocksAppend | src/extension.ts:58-85 | the blocks of two lists of files are the blocks of the first followed by those of the second |
| Assembly.BlocksAt | src/extension.ts:58-85 | the blocks of a list hold the block of its `i`-th file between the blocks before it and after it |
| Assembly.EveryFileHasItsBlock | src/extension.ts:58-85 | every collected file has its own block in the document, at its place in the sorted order |
| Assembly.CombineFilesCommand | src/extension.ts:8-99 | the handler returns `CombineFiles` |
| Assembly.CombineFilesOutcome | src/extension.ts:10-98 | the command asks for a selection exactly when it has neither a selection nor a clicked entry; it fails exactly when `collectAllFiles` throws, with that error after the failure prefix; a combined document reports the number of collected files |
| Assembly.CombinedLayout | src/extension.ts:55-85 | a combined document starts with the tree banner; there is an order of the collected files, sorted by depth, in which the document is the header followed by the blocks of that order, and every collected file's block stands at its index |

## Left out

- The editor integration is left out: registering the command, opening and showing the untitled document, the `editor.edit` that writes into it, and the text of the information and error messages. The model returns the outcome those calls would display.
- The real `fs` calls become lookups in an immutable tree. Every call on a missing path, or on a path of the wrong kind, fails with one opaque error text (`Fs.missing`). Each `${error}` is modelled as that text, not as Node's message format.
- UTF-8 decoding is left out: a file carries its bytes and its decoded text side by side.
- `async`/`await` is left out: the work is sequential and nothing else runs in between.
- `process.platform`, the `win32` branch (both branches call the same function) and the unused `child_process` import are left out. Windows paths and `path.sep` other than `/` are not modelled.
- `console.error` logging is left out.
- The `try`/`catch` around `generateDirectoryTree` and the one inside `customDirectoryTree` around `readdirSync` need a note. The model reaches the catch only through an unreadable listing, which gives the error line. Nothing else in the tree throws, so the outer fallback to a second `customDirectoryTree` call, with its `无法生成目录树` message, is never reached and is left out.
- The outer `catch` of the command is modelled only for the failures of `collectAllFiles`. The document calls cannot fail in the model.
- Symbolic links and other special entries are not followed. Opening one fails, so it counts as binary and gets the binary placeholder.
- Binary.Lower: `toLowerCase` is modelled for ASCII capitals and the Kelvin sign. These are the only characters whose lower case can put an extension on the list. Other characters are left unchanged.
- Tree.TreeOf: for a common parent that is not an absolute path string (the `""` above), `readdirSync('')` fails, and the tree is its header and the error line. `collectIgnorePatterns('')` would read a rule file relative to the working directory. The model reads none, which does not change the output because the listing fails.
- The tree methods, the collector methods and Assembly.CombineFilesCommand require a well-formed tree. Entry names are valid components and unique within a directory, as a real file system guarantees.
- Ignore.FindIgnoreFiles: requires that the map built so far holds only paths deeper than the current one. The only caller, `collectIgnorePatterns`, meets this with an empty map.
- The `basePath` parameter of `shouldIgnorePath` is accepted and unused, as in the source.
- A `selectedFiles` argument that is not an array is treated like an empty selection. The URIs arrive already converted to paths, which stands for the `fsPath` map.
- `deactivate` is empty in the source and is left out.
