/** The first step of the command: `removeDuplicatePaths` drops the selected
    paths that lie inside a selected directory. */
module Selection {
  import opened Strings
  import opened Paths
  import opened FileSystem
  import opened Sorting
  import opened Seqs

  // ---------------------------------------------------------------------------
  // removeDuplicatePaths
  // ---------------------------------------------------------------------------

  /** The key of the first sort: `a.length` of the path string, which counts
      UTF-16 code units. */
  function LengthKey(p: Path): int
  {
    Utf16Length(Render(p))
  }

  /** `"/\U{1F600}a"` has the same `length` as `"/abc"`: its first character
      is a surrogate pair. So the stable sort keeps the two in their selected
      order, where counting characters would put the shorter one first. */
  lemma SurrogatePairCountsTwice()
    ensures |Render(["\U{1F600}a"])| == 3
    ensures LengthKey(["\U{1F600}a"]) == LengthKey(["abc"]) == 4
    ensures SortBy([["abc"], ["\U{1F600}a"]], LengthKey) == [["abc"], ["\U{1F600}a"]]
  {
    assert Render(["abc"]) == "/abc";
    assert Render(["\U{1F600}a"]) == "/\U{1F600}a";
    assert Utf16Length("/\U{1F600}a") == 1 + Utf16Length("\U{1F600}a");
    assert Utf16Length("\U{1F600}a") == 2 + Utf16Length("a");
  }

  /** Some kept directory contains `p` (the `isContained`/`shouldAdd` search). */
  predicate CoveredBy(fs: Fs, kept: seq<Path>, p: Path)
  {
    exists i :: 0 <= i < |kept| && IsDirectory(fs, kept[i]) && IsPathContained(kept[i], p)
  }

  /** The kept entries that the directory `d` does not contain, in order. */
  function Evict(kept: seq<Path>, d: Path): (r: seq<Path>)
    ensures forall x :: x in r <==> x in kept && !IsPathContained(d, x)
  {
    if kept == [] then []
    else (if IsPathContained(d, kept[0]) then [] else [kept[0]]) + Evict(kept[1..], d)
  }

  /** One iteration of the main loop of `removeDuplicatePaths`. */
  function Step(fs: Fs, kept: seq<Path>, p: Path): seq<Path>
  {
    if CoveredBy(fs, kept, p) then kept
    else if !IsDirectory(fs, p) then kept + [p]
    else Evict(kept, p) + [p]
  }

  /** The main loop over the length-sorted paths. */
  function Dedup(fs: Fs, sorted: seq<Path>): seq<Path>
  {
    if sorted == [] then [] else Step(fs, Dedup(fs, sorted[..|sorted| - 1]), sorted[|sorted| - 1])
  }

  /** What `removeDuplicatePaths(paths)` returns. */
  function RemoveDuplicates(fs: Fs, paths: seq<Path>): seq<Path>
  {
    Dedup(fs, SortBy(paths, LengthKey))
  }

  /** `removeDuplicatePaths`: a length-sorted copy is scanned; files and
      directories inside a kept directory are skipped; a new directory first
      evicts the kept entries it contains (indices collected, then spliced out
      back to front) and is then appended. */
  method RemoveDuplicatePaths(fs: Fs, paths: seq<Path>) returns (result: seq<Path>)
    ensures result == RemoveDuplicates(fs, paths)
  {
    var sortedPaths := SortBy(paths, LengthKey);
    result := [];
    var n := 0;
    while n < |sortedPaths|
      invariant 0 <= n <= |sortedPaths|
      invariant result == Dedup(fs, sortedPaths[..n])
    {
      TakeSnoc(sortedPaths, n);
      result := AddPath(fs, result, sortedPaths[n]);
      n := n + 1;
    }
    TakeAll(sortedPaths);
  }

  /** The body of the main loop for `currentPath`. */
  method AddPath(fs: Fs, kept: seq<Path>, currentPath: Path) returns (result: seq<Path>)
    ensures result == Step(fs, kept, currentPath)
  {
    result := kept;
    if !IsDirectory(fs, currentPath) {
      var isContained := IsContainedInKeptDirectory(fs, result, currentPath);
      if !isContained {
        result := result + [currentPath];
      }
    } else {
      var contained := IsContainedInKeptDirectory(fs, result, currentPath);
      var shouldAdd := !contained;
      if shouldAdd {
        result := EvictContained(result, currentPath);
        result := result + [currentPath];
      }
    }
  }

  /** The eviction step: the indices of the kept entries that `dir` contains
      are collected in increasing order, then spliced out back to front so
      that no index shifts before it is used. */
  method EvictContained(kept: seq<Path>, dir: Path) returns (result: seq<Path>)
    ensures result == Evict(kept, dir)
  {
    var toRemove := CollectContained(kept, dir);
    result := SpliceOut(kept, toRemove);
    KeepIsEvict(kept, toRemove, dir, 0);
  }

  /** The `toRemove` loop. */
  method CollectContained(kept: seq<Path>, dir: Path) returns (toRemove: seq<nat>)
    ensures toRemove == ContainedIndices(kept, dir, |kept|)
  {
    toRemove := [];
    var i := 0;
    while i < |kept|
      invariant 0 <= i <= |kept|
      invariant toRemove == ContainedIndices(kept, dir, i)
    {
      ContainedIndicesStep(kept, dir, i);
      if IsPathContained(dir, kept[i]) {
        toRemove := toRemove + [i];
      }
      i := i + 1;
    }
  }

  /** The back-to-front `splice` loop over increasing indices. */
  method SpliceOut<T>(kept: seq<T>, toRemove: seq<nat>) returns (result: seq<T>)
    requires forall a, b :: 0 <= a < b < |toRemove| ==> toRemove[a] < toRemove[b]
    requires forall a :: 0 <= a < |toRemove| ==> toRemove[a] < |kept|
    ensures result == KeepFrom(kept, toRemove, 0)
  {
    result := kept;
    var j := |toRemove|;
    KeepAll(kept, 0);
    assert toRemove[j..] == [];
    while j > 0
      invariant 0 <= j <= |toRemove|
      invariant result == KeepFrom(kept, toRemove[j..], 0)
    {
      j := j - 1;
      var t := toRemove[j];
      RemoveAt(kept, toRemove[j + 1..], 0, t);
      assert toRemove[j..] == [t] + toRemove[j + 1..];
      result := result[..t] + result[t + 1..];
    }
    assert toRemove[0..] == toRemove;
  }

  /** The inner search: is `p` inside a kept directory? */
  method IsContainedInKeptDirectory(fs: Fs, kept: seq<Path>, p: Path) returns (found: bool)
    ensures found <==> exists i :: 0 <= i < |kept| && IsDirectory(fs, kept[i]) && IsPathContained(kept[i], p)
  {
    found := false;
    var k := 0;
    while k < |kept|
      invariant 0 <= k <= |kept|
      invariant forall i :: 0 <= i < k ==> !(IsDirectory(fs, kept[i]) && IsPathContained(kept[i], p))
    {
      if IsDirectory(fs, kept[k]) && IsPathContained(kept[k], p) {
        found := true;
        return;
      }
      k := k + 1;
    }
  }

  /** The indices below `i` of entries that `d` contains, in increasing order. */
  function ContainedIndices(s: seq<Path>, d: Path, i: nat): (r: seq<nat>)
    requires i <= |s|
    ensures forall a, b :: 0 <= a < b < |r| ==> r[a] < r[b]
    ensures forall x {:trigger x in r} :: x in r <==> 0 <= x < i && IsPathContained(d, s[x])
    ensures forall a :: 0 <= a < |r| ==> r[a] < i
  {
    if i == 0 then []
    else
      var r := ContainedIndices(s, d, i - 1);
      if IsPathContained(d, s[i - 1]) then
        IndicesSnoc(r, i - 1);
        r + [i - 1]
      else r
  }

  /** Appending an index above all others keeps the indices increasing. */
  lemma IndicesSnoc(r: seq<nat>, i: nat)
    requires forall a, b :: 0 <= a < b < |r| ==> r[a] < r[b]
    requires forall a :: 0 <= a < |r| ==> r[a] < i
    ensures var t := r + [i];
      && (forall a, b :: 0 <= a < b < |t| ==> t[a] < t[b])
      && (forall a :: 0 <= a < |t| ==> t[a] < i + 1)
      && (forall x :: x in t <==> x in r || x == i)
  {
  }

  lemma ContainedIndicesStep(s: seq<Path>, d: Path, i: nat)
    requires i < |s|
    ensures IsPathContained(d, s[i]) ==> ContainedIndices(s, d, i + 1) == ContainedIndices(s, d, i) + [i]
    ensures !IsPathContained(d, s[i]) ==> ContainedIndices(s, d, i + 1) == ContainedIndices(s, d, i)
  {
  }

  /** `s` without the positions listed in `drop`, where `s[0]` is at position `off`. */
  function KeepFrom<T>(s: seq<T>, drop: seq<nat>, off: nat): seq<T>
  {
    if s == [] then [] else (if off in drop then [] else [s[0]]) + KeepFrom(s[1..], drop, off + 1)
  }

  lemma {:induction false} KeepAll<T>(s: seq<T>, off: nat)
    ensures KeepFrom(s, [], off) == s
  {
    if s != [] {
      KeepAll(s[1..], off + 1);
    }
  }

  lemma {:induction false} KeepSame<T>(s: seq<T>, d1: seq<nat>, d2: seq<nat>, off: nat)
    requires forall x :: off <= x < off + |s| ==> (x in d1 <==> x in d2)
    ensures KeepFrom(s, d1, off) == KeepFrom(s, d2, off)
  {
    if s != [] {
      KeepSame(s[1..], d1, d2, off + 1);
    }
  }

  /** Splicing out position `t`, which lies below every position already
      removed, is removing one more position. */
  lemma {:induction false} RemoveAt<T>(s: seq<T>, drop: seq<nat>, off: nat, t: nat)
    requires off <= t < off + |s|
    requires forall k :: 0 <= k < |drop| ==> drop[k] > t
    ensures var r := KeepFrom(s, drop, off);
      t - off < |r| && r[..t - off] + r[t - off + 1..] == KeepFrom(s, [t] + drop, off)
  {
    assert off !in drop;
    var r' := KeepFrom(s[1..], drop, off + 1);
    assert KeepFrom(s, drop, off) == [s[0]] + r';
    if t == off {
      KeepSame(s[1..], drop, [t] + drop, off + 1);
      CutFirst(s[0], r');
    } else {
      RemoveAt(s[1..], drop, off + 1, t);
      assert off !in [t] + drop;
      CutCons(s[0], r', t - off);
    }
  }

  /** Removing exactly the positions of the contained entries is eviction. */
  lemma {:induction false} KeepIsEvict(s: seq<Path>, drop: seq<nat>, d: Path, off: nat)
    requires forall x :: off <= x < off + |s| ==> (x in drop <==> IsPathContained(d, s[x - off]))
    ensures KeepFrom(s, drop, off) == Evict(s, d)
  {
    if s != [] {
      forall x | off + 1 <= x < off + 1 + |s[1..]|
        ensures x in drop <==> IsPathContained(d, s[1..][x - (off + 1)])
      {
        assert s[1..][x - (off + 1)] == s[x - off];
      }
      KeepIsEvict(s[1..], drop, d, off + 1);
    }
  }

  // ---------------------------------------------------------------------------
  // The invariants of removeDuplicatePaths
  // ---------------------------------------------------------------------------

  /** No kept entry lies inside a kept directory. */
  predicate NoNesting(fs: Fs, r: seq<Path>)
  {
    forall i, j :: 0 <= i < |r| && 0 <= j < |r| && IsDirectory(fs, r[j]) ==> !IsPathContained(r[j], r[i])
  }

  lemma {:induction false} DedupNoNesting(fs: Fs, sorted: seq<Path>)
    ensures NoNesting(fs, Dedup(fs, sorted))
  {
    if sorted != [] {
      var kept := Dedup(fs, sorted[..|sorted| - 1]);
      var p := sorted[|sorted| - 1];
      DedupNoNesting(fs, sorted[..|sorted| - 1]);
      if !CoveredBy(fs, kept, p) && IsDirectory(fs, p) {
        var r := Evict(kept, p) + [p];
        forall i, j | 0 <= i < |r| && 0 <= j < |r| && IsDirectory(fs, r[j])
          ensures !IsPathContained(r[j], r[i])
        {
          assert r[i] in kept || r[i] == p;
          assert r[j] in kept || r[j] == p;
          if r[i] == p && r[j] == p {
            ContainedIrreflexive(p);
          }
        }
      }
    }
  }

  /** Every path seen is kept or lies inside a kept directory. */
  ghost predicate Covers(fs: Fs, s: seq<Path>, r: seq<Path>)
  {
    forall x :: x in s ==> x in r || CoveredBy(fs, r, x)
  }

  lemma {:induction false} DedupCovers(fs: Fs, sorted: seq<Path>)
    requires forall i :: 0 <= i < |sorted| ==> ValidPath(sorted[i])
    ensures Covers(fs, sorted, Dedup(fs, sorted))
  {
    if sorted != [] {
      var init := sorted[..|sorted| - 1];
      var p := sorted[|sorted| - 1];
      DedupCovers(fs, init);
      DedupWithin(fs, init);
      assert sorted == init + [p];
      StepCovers(fs, init, Dedup(fs, init), p);
    }
  }

  /** One step keeps everything seen so far covered; an evicted directory's
      contents are covered by the directory that evicted it, by transitivity. */
  lemma StepCovers(fs: Fs, init: seq<Path>, kept: seq<Path>, p: Path)
    requires ValidPath(p) && forall i :: 0 <= i < |init| ==> ValidPath(init[i])
    requires Covers(fs, init, kept) && forall x :: x in kept ==> x in init
    ensures Covers(fs, init + [p], Step(fs, kept, p))
  {
    assert forall y :: y in kept ==> ValidPath(y);
    forall x | x in init + [p] ensures x in Step(fs, kept, p) || CoveredBy(fs, Step(fs, kept, p), x) {
      if x == p {
        StepKeepsNew(fs, kept, p);
      } else {
        assert x in init;
        assert ValidPath(x);
        StepCoversOld(fs, kept, p, x);
      }
    }
  }

  lemma StepKeepsNew(fs: Fs, kept: seq<Path>, p: Path)
    ensures p in Step(fs, kept, p) || CoveredBy(fs, Step(fs, kept, p), p)
  {
    if !CoveredBy(fs, kept, p) {
      var r := Step(fs, kept, p);
      assert r[|r| - 1] == p;
    }
  }

  lemma StepCoversOld(fs: Fs, kept: seq<Path>, p: Path, x: Path)
    requires ValidPath(p) && ValidPath(x) && forall y :: y in kept ==> ValidPath(y)
    requires x in kept || CoveredBy(fs, kept, x)
    ensures x in Step(fs, kept, p) || CoveredBy(fs, Step(fs, kept, p), x)
  {
    var r := Step(fs, kept, p);
    if x in kept {
      if !CoveredBy(fs, kept, p) && IsDirectory(fs, p) && IsPathContained(p, x) {
        assert r[|r| - 1] == p;
      }
    } else {
      var i :| 0 <= i < |kept| && IsDirectory(fs, kept[i]) && IsPathContained(kept[i], x);
      CoveredByKept(fs, kept, p, kept[i], x);
    }
  }

  lemma CoveredByKept(fs: Fs, kept: seq<Path>, p: Path, e: Path, x: Path)
    requires ValidPath(p) && ValidPath(e) && ValidPath(x)
    requires e in kept && IsDirectory(fs, e) && IsPathContained(e, x)
    ensures CoveredBy(fs, Step(fs, kept, p), x)
  {
    var r := Step(fs, kept, p);
    if !CoveredBy(fs, kept, p) && IsDirectory(fs, p) && IsPathContained(p, e) {
      ContainedTransitive(p, e, x);
      assert r[|r| - 1] == p;
    } else {
      assert e in r;
      var k :| 0 <= k < |r| && r[k] == e;
    }
  }

  /** Every kept entry is one of the paths seen. */
  lemma {:induction false} DedupWithin(fs: Fs, sorted: seq<Path>)
    ensures forall x :: x in Dedup(fs, sorted) ==> x in sorted
  {
    if sorted != [] {
      DedupWithin(fs, sorted[..|sorted| - 1]);
    }
  }

  /** `idx` picks the elements of `r` out of `s` at increasing positions. */
  ghost predicate IsEmbedding<T>(idx: seq<nat>, r: seq<T>, s: seq<T>)
  {
    && |idx| == |r|
    && (forall k :: 0 <= k < |idx| ==> idx[k] < |s| && r[k] == s[idx[k]])
    && (forall k, l :: 0 <= k < l < |idx| ==> idx[k] < idx[l])
  }

  ghost predicate IsSubsequence<T>(r: seq<T>, s: seq<T>)
  {
    exists idx :: IsEmbedding(idx, r, s)
  }

  lemma SubsequenceSnoc<T>(r: seq<T>, s: seq<T>, x: T)
    requires IsSubsequence(r, s)
    ensures IsSubsequence(r + [x], s + [x]) && IsSubsequence(r, s + [x])
  {
    var idx: seq<nat> :| IsEmbedding(idx, r, s);
    assert IsEmbedding(idx + [|s|], r + [x], s + [x]);
    assert IsEmbedding(idx, r, s + [x]);
  }

  lemma SubsequenceTransitive<T>(a: seq<T>, b: seq<T>, c: seq<T>)
    requires IsSubsequence(a, b) && IsSubsequence(b, c)
    ensures IsSubsequence(a, c)
  {
    var i1: seq<nat> :| IsEmbedding(i1, a, b);
    var i2: seq<nat> :| IsEmbedding(i2, b, c);
    var i3 := seq(|i1|, k requires 0 <= k < |i1| => i2[i1[k]]);
    assert IsEmbedding(i3, a, c);
  }

  lemma SubsequenceCons<T>(a: seq<T>, b: seq<T>, x: T)
    requires IsSubsequence(a, b)
    ensures IsSubsequence(a, [x] + b) && IsSubsequence([x] + a, [x] + b)
  {
    var idx: seq<nat> :| IsEmbedding(idx, a, b);
    var shifted := seq(|idx|, k requires 0 <= k < |idx| => idx[k] + 1);
    assert IsEmbedding(shifted, a, [x] + b);
    assert IsEmbedding([0] + shifted, [x] + a, [x] + b);
  }

  lemma {:induction false} EvictSubsequence(kept: seq<Path>, d: Path)
    ensures IsSubsequence(Evict(kept, d), kept)
  {
    if kept == [] {
      assert IsEmbedding([], Evict(kept, d), kept);
    } else {
      EvictSubsequence(kept[1..], d);
      SubsequenceCons(Evict(kept[1..], d), kept[1..], kept[0]);
      assert [kept[0]] + kept[1..] == kept;
      if IsPathContained(d, kept[0]) {
        assert Evict(kept, d) == Evict(kept[1..], d);
      } else {
        assert Evict(kept, d) == [kept[0]] + Evict(kept[1..], d);
      }
    }
  }

  /** The result is a subsequence of the sorted input. */
  lemma {:induction false} DedupSubsequence(fs: Fs, sorted: seq<Path>)
    ensures IsSubsequence(Dedup(fs, sorted), sorted)
  {
    if sorted == [] {
      assert IsEmbedding([], [], sorted);
    } else {
      var init := sorted[..|sorted| - 1];
      var kept := Dedup(fs, init);
      var p := sorted[|sorted| - 1];
      assert sorted == init + [p];
      DedupSubsequence(fs, init);
      SubsequenceSnoc(kept, init, p);
      if !CoveredBy(fs, kept, p) && IsDirectory(fs, p) {
        EvictSubsequence(kept, p);
        SubsequenceTransitive(Evict(kept, p), kept, init);
        SubsequenceSnoc(Evict(kept, p), init, p);
      }
    }
  }

  /** The three invariants of `removeDuplicatePaths`: nothing kept lies inside
      a kept directory; every selected path is kept or inside a kept
      directory; the result is a subsequence of the length-sorted selection. */
  lemma RemoveDuplicatesCorrect(fs: Fs, paths: seq<Path>)
    requires forall i :: 0 <= i < |paths| ==> ValidPath(paths[i])
    ensures var r := RemoveDuplicates(fs, paths);
      && NoNesting(fs, r)
      && (forall x :: x in paths ==> x in r || CoveredBy(fs, r, x))
      && IsSubsequence(r, SortBy(paths, LengthKey))
  {
    var sorted := SortBy(paths, LengthKey);
    SortByCorrect(paths, LengthKey);
    forall i | 0 <= i < |sorted| ensures ValidPath(sorted[i]) {
      assert sorted[i] in multiset(paths);
    }
    DedupNoNesting(fs, sorted);
    DedupCovers(fs, sorted);
    DedupSubsequence(fs, sorted);
    forall x | x in paths ensures x in sorted {
      assert x in multiset(sorted);
    }
  }

  /** When nothing is nested, the main loop keeps every path. */
  lemma {:induction false} DedupFixpoint(fs: Fs, r: seq<Path>)
    requires NoNesting(fs, r)
    ensures Dedup(fs, r) == r
  {
    if r != [] {
      var init := r[..|r| - 1];
      var p := r[|r| - 1];
      assert forall i :: 0 <= i < |init| ==> init[i] == r[i];
      assert NoNesting(fs, init);
      DedupFixpoint(fs, init);
      assert !CoveredBy(fs, init, p);
      if IsDirectory(fs, p) {
        EvictNothing(init, p);
      }
      SplitLast(r);
    }
  }

  lemma {:induction false} EvictNothing(kept: seq<Path>, d: Path)
    requires forall i :: 0 <= i < |kept| ==> !IsPathContained(d, kept[i])
    ensures Evict(kept, d) == kept
  {
    if kept != [] {
      EvictNothing(kept[1..], d);
    }
  }

  lemma SubsequenceSorted<T>(r: seq<T>, s: seq<T>, key: T -> int)
    requires IsSubsequence(r, s) && SortedBy(s, key)
    ensures SortedBy(r, key)
  {
    var idx: seq<nat> :| IsEmbedding(idx, r, s);
  }

  /** Deduplicating an already deduplicated selection changes nothing. */
  lemma RemoveDuplicatesIdempotent(fs: Fs, paths: seq<Path>)
    ensures RemoveDuplicates(fs, RemoveDuplicates(fs, paths)) == RemoveDuplicates(fs, paths)
  {
    var sorted := SortBy(paths, LengthKey);
    var r := Dedup(fs, sorted);
    SortByCorrect(paths, LengthKey);
    DedupSubsequence(fs, sorted);
    SubsequenceSorted(r, sorted, LengthKey);
    SortBySorted(r, LengthKey);
    DedupNoNesting(fs, sorted);
    DedupFixpoint(fs, r);
  }

  /** Appending a component lengthens the rendered path. */
  lemma RenderSnocLonger(p: Path, c: string)
    requires ValidComponent(c)
    ensures LengthKey(p) < LengthKey(p + [c])
  {
    var pre := if p == [] then [] else Render(p);
    RenderSnoc(p, c);
    Utf16LengthConcat(pre, "/" + c);
    Utf16LengthConcat("/", c);
    assert Utf16Length("/") == 1;
  }

  /** A path inside a directory is longer than the directory's path. */
  lemma {:induction false} ContainedIsLonger(d: Path, x: Path)
    requires ValidPath(d) && ValidPath(x) && IsStrictPrefix(d, x)
    ensures LengthKey(d) < LengthKey(x)
    decreases |x|
  {
    var init := x[..|x| - 1];
    assert x == init + [x[|x| - 1]];
    RenderSnocLonger(init, x[|x| - 1]);
    if |init| > |d| {
      assert init[..|d|] == x[..|d|];
      ContainedIsLonger(d, init);
    } else {
      assert init == d;
    }
  }

  /** Because the selection is sorted by length first (`SortByCorrect`), every
      path kept so far is at most as long as the next one, so the next one
      contains none of them: the eviction of `removeDuplicatePaths` never
      removes anything. */
  lemma EvictionNeverFires(fs: Fs, sorted: seq<Path>, n: nat)
    requires forall i :: 0 <= i < |sorted| ==> ValidPath(sorted[i])
    requires SortedBy(sorted, LengthKey) && n < |sorted|
    ensures var kept := Dedup(fs, sorted[..n]);
      && ContainedIndices(kept, sorted[n], |kept|) == []
      && Evict(kept, sorted[n]) == kept
  {
    var kept := Dedup(fs, sorted[..n]);
    DedupWithin(fs, sorted[..n]);
    forall i | 0 <= i < |kept| ensures !IsPathContained(sorted[n], kept[i]) {
      assert kept[i] in kept;
      EarlierNotContained(sorted, n, kept[i]);
    }
    EvictNothing(kept, sorted[n]);
    NoContainedIndices(kept, sorted[n], |kept|);
  }

  lemma {:induction false} NoContainedIndices(s: seq<Path>, d: Path, i: nat)
    requires i <= |s| && forall k :: 0 <= k < |s| ==> !IsPathContained(d, s[k])
    ensures ContainedIndices(s, d, i) == []
  {
    if i > 0 {
      NoContainedIndices(s, d, i - 1);
      ContainedIndicesStep(s, d, i - 1);
    }
  }

  /** A path before `sorted[n]` in the length order is not inside it. */
  lemma EarlierNotContained(sorted: seq<Path>, n: nat, x: Path)
    requires forall i :: 0 <= i < |sorted| ==> ValidPath(sorted[i])
    requires SortedBy(sorted, LengthKey) && n < |sorted| && x in sorted[..n]
    ensures !IsPathContained(sorted[n], x)
  {
    var j :| 0 <= j < n && sorted[..n][j] == x;
    assert LengthKey(x) <= LengthKey(sorted[n]);
    ContainedIff(sorted[n], x);
    if IsPathContained(sorted[n], x) {
      ContainedIsLonger(sorted[n], x);
    }
  }
}
