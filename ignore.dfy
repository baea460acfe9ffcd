/** The `.file_combiner.ignore` rules: reading them from a directory and its
    ancestors (`collectIgnorePatterns`), testing a path against them
    (`shouldIgnorePath`), and merging the rules of several selections. */
module Ignore {
  import opened Wrappers
  import opened Strings
  import opened Paths
  import opened FileSystem
  import opened Seqs

  /** The name of a rule file. */
  const IgnoreFileName: string := ".file_combiner.ignore"

  /** The rules in force: for each directory holding a rule file, its patterns. */
  type Scopes = map<Path, set<string>>

  /** A trimmed line that becomes a pattern: not empty and not a `#` comment. */
  predicate IsPatternLine(t: string)
  {
    t != [] && !StartsWith(t, "#")
  }

  /** `lines.map(line => line.trim()).filter(line => line && !line.startsWith('#'))`. */
  function PatternLines(lines: seq<string>): seq<string>
  {
    MapFilter(lines, Trim, IsPatternLine)
  }

  /** The kept lines are the trimmed lines that are neither empty nor comments. */
  lemma PatternLinesMeaning(lines: seq<string>)
    ensures forall pat :: pat in PatternLines(lines) <==>
      exists i :: 0 <= i < |lines| && pat == Trim(lines[i]) && IsPatternLine(pat)
  {
    MapFilterMembers(lines, Trim, IsPatternLine);
  }

  /** The pattern set of a rule file's text. */
  function ParsePatterns(content: string): set<string>
  {
    ToSet(PatternLines(Split(content, '\n')))
  }

  /** `new Set(patterns)`. */
  function ToSet(s: seq<string>): set<string>
  {
    if s == [] then {} else {s[0]} + ToSet(s[1..])
  }

  lemma {:induction false} ToSetMembers(s: seq<string>)
    ensures forall x :: x in ToSet(s) <==> x in s
  {
    if s != [] {
      ToSetMembers(s[1..]);
      assert forall x :: x in s <==> x == s[0] || x in s[1..];
    }
  }

  /** Each pattern is a line of the file with its surrounding whitespace
      removed; it is not empty, is not a comment, and is already trimmed. */
  lemma ParsePatternsShape(content: string, pat: string)
    requires pat in ParsePatterns(content)
    ensures pat != [] && !StartsWith(pat, "#") && Trim(pat) == pat
    ensures exists line :: line in Split(content, '\n') && Trim(line) == pat
  {
    var lines := Split(content, '\n');
    ToSetMembers(PatternLines(lines));
    PatternLineShape(lines, pat);
  }

  lemma PatternLineShape(lines: seq<string>, pat: string)
    requires pat in PatternLines(lines)
    ensures pat != [] && !StartsWith(pat, "#") && Trim(pat) == pat
    ensures exists line :: line in lines && Trim(line) == pat
  {
    PatternLinesMeaning(lines);
    var i :| 0 <= i < |lines| && pat == Trim(lines[i]) && IsPatternLine(pat);
    TrimIdempotent(lines[i]);
  }

  /** The patterns of two blocks of lines joined by a newline are the patterns
      of each block together. */
  lemma ParsePatternsConcat(a: string, b: string)
    ensures ParsePatterns(a + "\n" + b) == ParsePatterns(a) + ParsePatterns(b)
  {
    SplitConcat(a, b, '\n');
    var x := PatternLines(Split(a, '\n'));
    var y := PatternLines(Split(b, '\n'));
    MapFilterAppend(Split(a, '\n'), Split(b, '\n'), Trim, IsPatternLine);
    assert PatternLines(Split(a + "\n" + b, '\n')) == x + y;
    ElementsAppend(x, y);
  }

  lemma ElementsAppend(x: seq<string>, y: seq<string>)
    ensures ToSet(x + y) == ToSet(x) + ToSet(y)
  {
    ToSetMembers(x + y);
    ToSetMembers(x);
    ToSetMembers(y);
  }

  /** What the rule file of directory `d` contributes: nothing when it does
      not exist (`existsSync`) or cannot be read as text (the error is only
      logged), otherwise its pattern set. */
  function IgnoreFileAt(fs: Fs, d: Path): Option<set<string>>
  {
    var ignoreFilePath := JoinPath(d, IgnoreFileName);
    if Lookup(fs, ignoreFilePath).None? then None
    else match ReadText(fs, ignoreFilePath)
      case Ok(content) => Some(ParsePatterns(content))
      case Err(_) => None
  }

  /** The rule-file lookup as a function of the directory. */
  function Rules(fs: Fs): Path -> Option<set<string>>
  {
    d => IgnoreFileAt(fs, d)
  }

  /** The entries `at` gives for `base` and each of its ancestors, climbing
      with `dirname` until the root. */
  function AncestorMap<V>(base: Path, at: Path -> Option<V>): map<Path, V>
    decreases |base|
  {
    var up := if base == [] then map[] else AncestorMap(Dirname(base), at);
    match at(base)
    case None => up
    case Some(v) => up[base := v]
  }

  /** The keys are exactly the ancestors of `base` (itself included) for which
      `at` gives a value, each mapped to that value. */
  lemma {:induction false} AncestorMapAt<V>(base: Path, at: Path -> Option<V>, d: Path)
    decreases |base|
    ensures d in AncestorMap(base, at) <==> IsPrefix(d, base) && at(d).Some?
    ensures d in AncestorMap(base, at) ==> AncestorMap(base, at)[d] == at(d).value
  {
    if base != [] {
      AncestorMapAt(Dirname(base), at, d);
      if IsPrefix(d, Dirname(base)) {
        assert base[..|d|] == Dirname(base)[..|d|];
      }
      if IsPrefix(d, base) && d != base {
        assert Dirname(base)[..|d|] == base[..|d|];
      }
    }
  }

  /** One step of the climb: the entry of `base` itself, over those of its
      ancestors, none of which is `base`. */
  lemma AncestorMapUnfold<V>(base: Path, at: Path -> Option<V>)
    ensures var up: map<Path, V> := if base == [] then map[] else AncestorMap(Dirname(base), at);
      && base !in up
      && AncestorMap(base, at) == if at(base).Some? then up[base := at(base).value] else up
  {
    if base != [] {
      AncestorMapAt(Dirname(base), at, base);
    }
  }

  /** The map `collectIgnorePatterns(base)` returns. */
  function ScopesOf(fs: Fs, base: Path): Scopes
  {
    AncestorMap(base, Rules(fs))
  }

  /** `collectIgnorePatterns(base)` has one entry for `base` and for each of
      its ancestors up to the root that holds a readable rule file, mapped to
      that file's patterns, and no other entry. */
  lemma ScopesOfMeaning(fs: Fs, base: Path)
    ensures forall d :: d in ScopesOf(fs, base) <==> IsPrefix(d, base) && IgnoreFileAt(fs, d).Some?
    ensures forall d :: d in ScopesOf(fs, base) ==> ScopesOf(fs, base)[d] == IgnoreFileAt(fs, d).value
  {
    forall d
      ensures d in ScopesOf(fs, base) <==> IsPrefix(d, base) && IgnoreFileAt(fs, d).Some?
      ensures d in ScopesOf(fs, base) ==> ScopesOf(fs, base)[d] == IgnoreFileAt(fs, d).value
    {
      AncestorMapAt(base, Rules(fs), d);
      assert Rules(fs)(d) == IgnoreFileAt(fs, d);
    }
  }

  /** `collectIgnorePatterns(basePath)`. */
  method CollectIgnorePatterns(fs: Fs, basePath: Path) returns (ignoreMap: Scopes)
    ensures ignoreMap == ScopesOf(fs, basePath)
  {
    ignoreMap := FindIgnoreFiles(fs, basePath, map[]);
    UnionEmpty(ScopesOf(fs, basePath));
  }

  /** The inner `findIgnoreFiles(currentPath)`: records the rule file of
      `currentPath`, if any, then climbs to the parent until `dirname` no
      longer changes the path. The map is threaded through as a value. */
  method FindIgnoreFiles(fs: Fs, currentPath: Path, ignoreMap: Scopes) returns (r: Scopes)
    requires forall d :: d in ignoreMap ==> |d| > |currentPath|
    decreases |currentPath|
    ensures r == ignoreMap + ScopesOf(fs, currentPath)
  {
    var m := RecordIgnoreFile(fs, currentPath, ignoreMap);
    assert Rules(fs)(currentPath) == IgnoreFileAt(fs, currentPath);
    RecordKeepsDeeper(ignoreMap, m, currentPath, Rules(fs)(currentPath));
    var parentPath := Dirname(currentPath);
    if parentPath != currentPath {
      r := FindIgnoreFiles(fs, parentPath, m);
    } else {
      r := m;
    }
    ClimbStep(ignoreMap, m, currentPath, Rules(fs), r);
  }

  /** After recording `cur`, every key still lies below the parent of `cur`,
      unless `cur` is the root, which has no parent. */
  lemma RecordKeepsDeeper<V>(ignoreMap: map<Path, V>, m: map<Path, V>, cur: Path, own: Option<V>)
    requires forall d :: d in ignoreMap ==> |d| > |cur|
    requires m == if own.Some? then ignoreMap[cur := own.value] else ignoreMap
    ensures cur != [] ==> forall d :: d in m ==> |d| > |Dirname(cur)|
  {
  }

  /** One step of the climb for any lookup `at`: recording the entry of
      `cur` and then adding the entries above it gives the entries of `cur`
      and above. */
  lemma ClimbStep<V>(ignoreMap: map<Path, V>, m: map<Path, V>, cur: Path, at: Path -> Option<V>, r: map<Path, V>)
    requires m == if at(cur).Some? then ignoreMap[cur := at(cur).value] else ignoreMap
    requires cur != [] ==> r == m + AncestorMap(Dirname(cur), at)
    requires cur == [] ==> r == m
    ensures r == ignoreMap + AncestorMap(cur, at)
  {
    var up: map<Path, V> := if cur == [] then map[] else AncestorMap(Dirname(cur), at);
    AncestorMapUnfold(cur, at);
    UnionEmptyRight(m);
    RecordThenClimb(ignoreMap, m, cur, at(cur), up, AncestorMap(cur, at), r);
  }

  /** The body of `findIgnoreFiles` before the climb: the patterns of the
      rule file of `currentPath` recorded when it exists and can be read. */
  method RecordIgnoreFile(fs: Fs, currentPath: Path, ignoreMap: Scopes) returns (m: Scopes)
    ensures m == if IgnoreFileAt(fs, currentPath).Some? then ignoreMap[currentPath := IgnoreFileAt(fs, currentPath).value]
                 else ignoreMap
  {
    m := ignoreMap;
    var ignoreFilePath := JoinPath(currentPath, IgnoreFileName);
    if Lookup(fs, ignoreFilePath).Some? {
      var read := ReadText(fs, ignoreFilePath);
      if read.Ok? {
        var patterns := ParsePatterns(read.value);
        m := m[currentPath := patterns];
      }
    }
  }

  lemma UnionEmpty<K, V>(m: map<K, V>)
    ensures map[] + m == m
  {
  }

  lemma UnionEmptyRight<K, V>(m: map<K, V>)
    ensures m + map[] == m
  {
  }

  /** Recording the entry of `cur` and then adding the entries above it is
      adding the entries of `cur` and above at once. */
  lemma RecordThenClimb<K, V>(ignoreMap: map<K, V>, m: map<K, V>, cur: K, own: Option<V>, up: map<K, V>,
                              whole: map<K, V>, r: map<K, V>)
    requires m == if own.Some? then ignoreMap[cur := own.value] else ignoreMap
    requires whole == if own.Some? then up[cur := own.value] else up
    requires cur !in up && r == m + up
    ensures r == ignoreMap + whole
  {
  }

  // ---------------------------------------------------------------------------
  // shouldIgnorePath
  // ---------------------------------------------------------------------------

  /** A pattern matches a relative path exactly, or as a leading directory. */
  predicate Matches(rel: string, pat: string)
  {
    rel == pat || StartsWith(rel, pat + "/")
  }

  /** `shouldIgnorePath`: some pattern of some scope matches the path taken
      relative to that scope's directory. */
  predicate Ignored(fullPath: Path, scopes: Scopes)
  {
    exists d, pat :: d in scopes && pat in scopes[d] && Matches(Relative(d, fullPath), pat)
  }

  /** `shouldIgnorePath(fullPath, basePath, ignorePatterns)`: the loops over the
      scopes and their patterns, returning at the first match. `basePath` is
      not used. */
  method ShouldIgnorePath(fullPath: Path, basePath: Path, ignorePatterns: Scopes) returns (ignored: bool)
    ensures ignored == Ignored(fullPath, ignorePatterns)
  {
    var dirs := ignorePatterns.Keys;
    while dirs != {}
      invariant dirs <= ignorePatterns.Keys
      invariant forall d, pat :: d in ignorePatterns && d !in dirs && pat in ignorePatterns[d] ==> !Matches(Relative(d, fullPath), pat)
      decreases dirs
    {
      var dirPath :| dirPath in dirs;
      var relPath := Relative(dirPath, fullPath);
      var patterns := ignorePatterns[dirPath];
      while patterns != {}
        invariant patterns <= ignorePatterns[dirPath]
        invariant forall pat :: pat in ignorePatterns[dirPath] && pat !in patterns ==> !Matches(relPath, pat)
        decreases patterns
      {
        var pattern :| pattern in patterns;
        if relPath == pattern {
          return true;
        }
        if StartsWith(relPath, pattern + "/") {
          return true;
        }
        patterns := patterns - {pattern};
      }
      dirs := dirs - {dirPath};
    }
    return false;
  }

  /** What a pattern means for a path below its scope: the pattern, split on
      `/`, is a leading run of the components below the scope. */
  lemma MatchesIff(d: Path, p: Path, pat: string)
    requires IsStrictPrefix(d, p) && ValidPath(p)
    ensures Matches(Relative(d, p), pat) <==> IsPrefix(Split(pat, '/'), p[|d|..])
  {
    var q := p[|d|..];
    assert forall i :: 0 <= i < |q| ==> q[i] == p[|d| + i];
    RelativeFromAncestor(d, p);
    var rel := Relative(d, p);
    var s := Split(pat, '/');
    JoinSplit(pat, '/');
    SplitJoin(q, '/');
    if IsPrefix(s, q) {
      if |s| < |q| {
        TakeDrop(q, |s|);
        JoinAppend(s, q[|s|..], "/");
        StartsWithConcat(pat + "/", Join(q[|s|..], "/"));
        assert StartsWith(rel, pat + "/");
      } else {
        TakeAll(q);
        assert rel == pat;
      }
    }
    if StartsWith(rel, pat + "/") {
      var rest := rel[|pat + "/"|..];
      TakeDrop(rel, |pat + "/"|);
      SplitConcat(pat, rest, '/');
      TakeConcat(s, Split(rest, '/'));
      assert q == s + Split(rest, '/');
      assert IsPrefix(s, q);
    }
    if rel == pat {
      TakeAll(q);
      assert IsPrefix(s, q);
    }
  }

  /** A pattern ending in `/` (such as `node_modules/`) matches nothing below
      its scope, because the relative path never holds an empty component. */
  lemma TrailingSlashMatchesNothing(d: Path, p: Path, pat: string)
    requires IsStrictPrefix(d, p) && ValidPath(p) && EndsWith(pat, "/")
    ensures !Matches(Relative(d, p), pat)
  {
    MatchesIff(d, p, pat);
    var k := |pat| - 1;
    assert pat == pat[..k] + "/" + [];
    SplitConcat(pat[..k], [], '/');
    var s := Split(pat, '/');
    var q := p[|d|..];
    assert s[|s| - 1] == [];
    if |s| <= |q| {
      assert q[|s| - 1] == p[|d| + |s| - 1];
      assert ValidComponent(q[|s| - 1]);
      assert q[..|s|][|s| - 1] != s[|s| - 1];
    }
  }

  /** Every pattern of the scopes is non-empty, as parsed patterns are. */
  predicate NonEmptyPatterns(scopes: Scopes)
  {
    forall d, pat :: d in scopes && pat in scopes[d] ==> pat != []
  }

  /** When every scope is an ancestor of `p` (or `p` itself), everything below an
      ignored path is ignored too. */
  lemma IgnoredInherited(p: Path, n: string, scopes: Scopes)
    requires ValidPath(p) && ValidComponent(n) && NonEmptyPatterns(scopes)
    requires forall d :: d in scopes ==> IsPrefix(d, p)
    requires Ignored(p, scopes)
    ensures Ignored(p + [n], scopes)
  {
    var d, pat :| d in scopes && pat in scopes[d] && Matches(Relative(d, p), pat);
    var c := p + [n];
    assert ValidPath(c) by { assert forall i :: 0 <= i < |p| ==> c[i] == p[i]; }
    RelativeSelf(p);
    assert pat != [];
    assert d != p;
    assert IsStrictPrefix(d, p) by { TakeAll(p); }
    TakeOfSnoc(p, |d|, n);
    MatchesIff(d, p, pat);
    MatchesIff(d, c, pat);
    DropOfSnoc(p, |d|, n);
    PrefixOfSnoc(Split(pat, '/'), p[|d|..], n);
  }

  /** A directory taken relative to itself is the empty string. */
  lemma RelativeSelf(p: Path)
    ensures Relative(p, p) == []
  {
    RelativeFromAncestor(p, p);
    assert p[|p|..] == [];
  }

  // ---------------------------------------------------------------------------
  // Merging the rules of several selected directories (collectAllFiles)
  // ---------------------------------------------------------------------------

  function Get<K, T>(m: map<K, set<T>>, d: K): set<T>
  {
    if d in m then m[d] else {}
  }

  /** Directory by directory union of two rule maps. */
  function Merge<K, T>(a: map<K, set<T>>, b: map<K, set<T>>): map<K, set<T>>
  {
    map d | d in a.Keys + b.Keys :: Get(a, d) + Get(b, d)
  }

  /** A path is ignored under merged rules exactly when either map ignores it. */
  lemma IgnoredMerge(p: Path, a: Scopes, b: Scopes)
    ensures Ignored(p, Merge(a, b)) <==> Ignored(p, a) || Ignored(p, b)
  {
    var m := Merge(a, b);
    if Ignored(p, m) {
      var d, pat :| d in m && pat in m[d] && Matches(Relative(d, p), pat);
      assert pat in Get(a, d) || pat in Get(b, d);
    }
    if Ignored(p, a) {
      var d, pat :| d in a && pat in a[d] && Matches(Relative(d, p), pat);
      assert d in m && pat in m[d];
    }
    if Ignored(p, b) {
      var d, pat :| d in b && pat in b[d] && Matches(Relative(d, p), pat);
      assert d in m && pat in m[d];
    }
  }

  /** The entries of `from` restricted to the keys in `done`. */
  function Restrict<K, T>(from: map<K, set<T>>, done: set<K>): map<K, set<T>>
  {
    map d | d in from.Keys && d in done :: from[d]
  }

  /** The merge loop of `collectAllFiles`: for each entry of `patterns`, an
      empty set is created when the directory is new, then every pattern is
      added to it. */
  method MergeInto<K, T>(ignorePatterns: map<K, set<T>>, patterns: map<K, set<T>>) returns (r: map<K, set<T>>)
    ensures r == Merge(ignorePatterns, patterns)
  {
    r := ignorePatterns;
    var todo := patterns.Keys;
    ghost var done: set<K> := {};
    MergeNothing(ignorePatterns, patterns);
    while todo != {}
      invariant todo <= patterns.Keys && done == patterns.Keys - todo
      invariant r == Merge(ignorePatterns, Restrict(patterns, done))
      decreases todo
    {
      var dir :| dir in todo;
      r := MergeStep(ignorePatterns, patterns, done, dir, r);
      done := done + {dir};
      todo := todo - {dir};
    }
    RestrictAll(patterns);
  }

  lemma RestrictAll<K, T>(from: map<K, set<T>>)
    ensures Restrict(from, from.Keys) == from
  {
  }

  /** One turn of the merge loop: merging the entry of `dir` extends the
      merge by that entry. */
  method MergeStep<K, T>(ignorePatterns: map<K, set<T>>, patterns: map<K, set<T>>, ghost done: set<K>, dir: K,
                         r: map<K, set<T>>) returns (r': map<K, set<T>>)
    requires dir in patterns && dir !in done
    requires r == Merge(ignorePatterns, Restrict(patterns, done))
    ensures r' == Merge(ignorePatterns, Restrict(patterns, done + {dir}))
  {
    MergeOneMore(ignorePatterns, patterns, done, dir);
    r' := MergeEntry(r, dir, patterns[dir]);
  }

  /** One entry of the merge loop: the set of `dir` is created when missing,
      then the patterns are added to it. */
  method MergeEntry<K, T>(m: map<K, set<T>>, dir: K, pats: set<T>) returns (r: map<K, set<T>>)
    ensures r == m[dir := Get(m, dir) + pats]
  {
    r := m;
    if dir !in r {
      r := r[dir := {}];
    }
    assert r[dir] == Get(m, dir);
    r := AddAll(r, dir, pats);
    UpdateTwice(m, dir, Get(m, dir), Get(m, dir) + pats);
  }

  lemma UpdateTwice<K, V>(m: map<K, V>, k: K, u: V, v: V)
    ensures m[k := u][k := v] == m[k := v]
  {
  }

  /** `pattern.forEach(p => ignorePatterns.get(dir)!.add(p))`. */
  method AddAll<K, T>(m: map<K, set<T>>, dir: K, pats: set<T>) returns (r: map<K, set<T>>)
    requires dir in m
    ensures r == m[dir := m[dir] + pats]
  {
    r := m;
    var todo := pats;
    assert m[dir] + (pats - todo) == m[dir];
    assert m[dir := m[dir]] == m;
    while todo != {}
      invariant todo <= pats
      invariant r == m[dir := m[dir] + (pats - todo)]
      decreases todo
    {
      var p :| p in todo;
      ghost var done := m[dir] + (pats - todo);
      assert r[dir] == done;
      assert done + {p} == m[dir] + (pats - (todo - {p}));
      UpdateTwice(m, dir, done, done + {p});
      r := r[dir := r[dir] + {p}];
      todo := todo - {p};
    }
    assert pats - todo == pats;
  }

  lemma MergeNothing<K, T>(a: map<K, set<T>>, from: map<K, set<T>>)
    ensures Merge(a, Restrict(from, {})) == a
  {
    assert Restrict(from, {}) == map[];
    var m := Merge(a, map[]);
    assert forall d :: d in m ==> m[d] == a[d];
  }

  lemma MergeOneMore<K, T>(a: map<K, set<T>>, from: map<K, set<T>>, done: set<K>, dir: K)
    requires dir in from && dir !in done
    ensures var before := Merge(a, Restrict(from, done));
      Merge(a, Restrict(from, done + {dir})) == before[dir := Get(before, dir) + from[dir]]
  {
    var before := Merge(a, Restrict(from, done));
    var after := Merge(a, Restrict(from, done + {dir}));
    var want := before[dir := Get(before, dir) + from[dir]];
    var r0 := Restrict(from, done);
    var r1 := Restrict(from, done + {dir});
    assert r1.Keys == r0.Keys + {dir};
    assert after.Keys == want.Keys;
    forall d | d in after ensures after[d] == want[d] {
      if d == dir {
        assert Get(r0, d) == {} && Get(r1, d) == from[dir];
        assert Get(before, d) == Get(a, d);
      } else {
        assert Get(r1, d) == Get(r0, d);
        assert want[d] == before[d];
      }
    }
  }
}
