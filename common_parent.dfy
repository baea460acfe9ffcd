/** `findCommonParentDirectory`: the directory the tree of the output is drawn
    from. The parent directory of every selected path is split into its string
    components, and the longest shared run of leading components is joined by
    `/` again. */
module CommonParent {
  import opened Strings
  import opened Paths
  import opened Sorting
  import opened Seqs

  /** The components `dirname(p).replace(/\\/g, '/').split('/')`. */
  function DirComponents(p: Path): seq<string>
  {
    Split(SlashBackslashes(Render(Dirname(p))), '/')
  }

  /** `c` is a leading run of every list. */
  predicate IsCommonPrefix(c: seq<string>, lists: seq<seq<string>>)
  {
    forall j :: 0 <= j < |lists| ==> IsPrefix(c, lists[j])
  }

  /** No longer leading run is shared by every list. */
  ghost predicate CannotExtend(c: seq<string>, lists: seq<seq<string>>)
  {
    forall x :: !IsCommonPrefix(c + [x], lists)
  }

  /** The longest common prefix of the lists, folding pairwise from the left. */
  function LongestCommonPrefix(lists: seq<seq<string>>): (c: seq<string>)
    requires |lists| >= 1
    ensures IsCommonPrefix(c, lists) && CannotExtend(c, lists)
  {
    if |lists| == 1 then
      assert forall x :: !IsPrefix(lists[0] + [x], lists[0]);
      lists[0]
    else
      var init := lists[..|lists| - 1];
      var last := lists[|lists| - 1];
      var r := LongestCommonPrefix(init);
      var c := r[..CommonPrefixLength(r, last)];
      FoldStep(init, last, r, c);
      c
  }

  lemma FoldStep(init: seq<seq<string>>, last: seq<string>, r: seq<string>, c: seq<string>)
    requires |init| >= 1 && IsCommonPrefix(r, init) && CannotExtend(r, init)
    requires c == r[..CommonPrefixLength(r, last)]
    ensures IsCommonPrefix(c, init + [last]) && CannotExtend(c, init + [last])
  {
    var lists := init + [last];
    var k := CommonPrefixLength(r, last);
    forall j | 0 <= j < |lists| ensures IsPrefix(c, lists[j]) {
      if j < |init| {
        assert lists[j] == init[j];
        assert lists[j][..k] == r[..k];
      } else {
        assert lists[j] == last;
      }
    }
    forall x ensures !IsCommonPrefix(c + [x], lists) {
      assert lists[0] == init[0] && lists[|init|] == last;
      if k < |r| {
        assert r == init[0][..|r|];
        assert (c + [x])[k] == x;
        if x != r[k] {
          assert !IsPrefix(c + [x], lists[0]);
        } else {
          assert !IsPrefix(c + [x], lists[|init|]) by {
            assert k < |last| ==> last[k] != r[k];
          }
        }
      } else {
        assert c == r;
        var j :| 0 <= j < |init| && !IsPrefix(r + [x], init[j]);
        assert lists[j] == init[j];
      }
    }
  }

  /** A common prefix that cannot be extended is the longest one. */
  lemma LongestUnique(c: seq<string>, lists: seq<seq<string>>)
    requires |lists| >= 1 && IsCommonPrefix(c, lists) && CannotExtend(c, lists)
    ensures c == LongestCommonPrefix(lists)
  {
    var l := LongestCommonPrefix(lists);
    assert IsPrefix(c, lists[0]) && IsPrefix(l, lists[0]);
    if |c| < |l| {
      UnextendedShorter(c, l, lists);
    } else if |l| < |c| {
      UnextendedShorter(l, c, lists);
    } else {
      assert c == lists[0][..|c|] == l;
    }
  }

  /** A shorter common prefix can always be extended by a step towards a longer one. */
  lemma UnextendedShorter(c: seq<string>, l: seq<string>, lists: seq<seq<string>>)
    requires |lists| >= 1 && IsCommonPrefix(c, lists) && IsCommonPrefix(l, lists) && |c| < |l|
    ensures IsCommonPrefix(c + [l[|c|]], lists)
  {
    forall j | 0 <= j < |lists| ensures IsPrefix(c + [l[|c|]], lists[j]) {
      assert c == lists[0][..|c|] == l[..|c|];
      assert c + [l[|c|]] == l[..|c| + 1];
      assert lists[j][..|l|] == l;
      assert lists[j][..|c| + 1] == l[..|c| + 1];
    }
  }

  /** What `findCommonParentDirectory(paths)` returns: `""` for no path, the
      parent of a single path, and otherwise the joined longest common prefix
      of the parents' components, or `/` when it is empty. */
  function CommonParentDirectory(paths: seq<Path>): string
  {
    if |paths| == 0 then ""
    else if |paths| == 1 then Render(Dirname(paths[0]))
    else
      var c := LongestCommonPrefix(seq(|paths|, j requires 0 <= j < |paths| => DirComponents(paths[j])));
      if c == [] then "/" else Join(c, "/")
  }

  /** The length of the shortest list (`Math.min(...)`). */
  function MinLength(lists: seq<seq<string>>): (m: nat)
    requires |lists| >= 1
    ensures forall j :: 0 <= j < |lists| ==> m <= |lists[j]|
    ensures exists j :: 0 <= j < |lists| && m == |lists[j]|
  {
    if |lists| == 1 then |lists[0]|
    else
      var m := MinLength(lists[1..]);
      assert forall j :: 1 <= j < |lists| ==> lists[j] == lists[1..][j - 1];
      if |lists[0]| <= m then |lists[0]| else m
  }

  /** `findCommonParentDirectory`: no path gives `""`, one path gives its
      parent, and otherwise the common components are joined by `/`. */
  method FindCommonParentDirectory(paths: seq<Path>) returns (r: string)
    ensures r == CommonParentDirectory(paths)
  {
    if |paths| == 0 {
      return "";
    }
    if |paths| == 1 {
      return Render(Dirname(paths[0]));
    }
    var pathComponents := seq(|paths|, j requires 0 <= j < |paths| => DirComponents(paths[j]));
    var commonComponents := CommonComponents(pathComponents);
    if commonComponents == [] {
      return "/";
    }
    r := Join(commonComponents, "/");
  }

  /** The component loop: `pathComponents[0][i]` is pushed while every list
      agrees at `i`, up to the shortest length. */
  method CommonComponents(pathComponents: seq<seq<string>>) returns (commonComponents: seq<string>)
    requires |pathComponents| >= 1
    ensures commonComponents == LongestCommonPrefix(pathComponents)
  {
    var minLength := MinLength(pathComponents);
    commonComponents := [];
    var i := 0;
    while i < minLength
      invariant 0 <= i <= minLength
      invariant commonComponents == pathComponents[0][..i]
      invariant IsCommonPrefix(commonComponents, pathComponents)
    {
      var component := pathComponents[0][i];
      if forall j :: 0 <= j < |pathComponents| ==> pathComponents[j][i] == component {
        commonComponents := commonComponents + [component];
        assert IsCommonPrefix(commonComponents, pathComponents) by {
          forall j | 0 <= j < |pathComponents| ensures IsPrefix(commonComponents, pathComponents[j]) {
            assert pathComponents[j][..i + 1] == pathComponents[j][..i] + [pathComponents[j][i]];
          }
        }
      } else {
        var j :| 0 <= j < |pathComponents| && pathComponents[j][i] != component;
        assert CannotExtend(commonComponents, pathComponents) by {
          forall x ensures !IsCommonPrefix(commonComponents + [x], pathComponents) {
            assert (commonComponents + [x])[i] == x;
          }
        }
        break;
      }
      i := i + 1;
    }
    if i == minLength {
      var j :| 0 <= j < |pathComponents| && minLength == |pathComponents[j]|;
      assert CannotExtend(commonComponents, pathComponents) by {
        forall x ensures !IsCommonPrefix(commonComponents + [x], pathComponents) {
          assert |commonComponents + [x]| > |pathComponents[j]|;
        }
      }
    }
    LongestUnique(commonComponents, pathComponents);
  }

  // ---------------------------------------------------------------------------
  // What the string result means for paths
  // ---------------------------------------------------------------------------

  function Parents(paths: seq<Path>): (r: seq<Path>)
    ensures |r| == |paths| && forall j :: 0 <= j < |paths| ==> r[j] == Dirname(paths[j])
  {
    seq(|paths|, j requires 0 <= j < |paths| => Dirname(paths[j]))
  }

  predicate Plain(paths: seq<Path>)
  {
    forall j :: 0 <= j < |paths| ==> ValidPath(paths[j]) && NoBackslash(paths[j])
  }

  /** The string components of a parent: `["", ""]` for `/`, otherwise an empty
      first component followed by the names. */
  lemma DirComponentsOf(p: Path)
    requires ValidPath(p) && NoBackslash(p)
    ensures DirComponents(p) == if Dirname(p) == [] then ["", ""] else [""] + Dirname(p)
  {
    var d := Dirname(p);
    if d == [] {
      assert Render(d) == "/";
      assert SlashBackslashes("/") == "/";
      assert Split("/", '/') == [[]] + Split([], '/');
    } else {
      assert forall i :: 0 <= i < |d| ==> d[i] == p[i];
      JoinNotIn(d, "/", '\\');
      NoBackslashUnchanged(Render(d));
      SplitAppend([], Join(d, "/"), '/');
      assert [] + ['/'] + Join(d, "/") == Render(d);
      SplitJoin(d, '/');
    }
  }

  /** For two or more valid paths, the result is the longest common ancestor `m`
      of their parents rendered as a path, except when `m` is the root: then
      the result is `/` only if every parent is the root, and `""` otherwise,
      because `[""].join("/")` is empty. */
  lemma CommonParentMeaning(paths: seq<Path>)
    requires |paths| >= 2 && Plain(paths)
    ensures var m := LongestCommonPrefix(Parents(paths));
      CommonParentDirectory(paths) ==
        if m != [] then Render(m)
        else if forall j :: 0 <= j < |paths| ==> Dirname(paths[j]) == [] then "/"
        else ""
  {
    var comps := seq(|paths|, j requires 0 <= j < |paths| => DirComponents(paths[j]));
    var ds := Parents(paths);
    forall j | 0 <= j < |paths|
      ensures ValidPath(ds[j])
      ensures comps[j] == if ds[j] == [] then ["", ""] else [""] + ds[j]
    {
      DirComponentsOf(paths[j]);
    }
    CommonOfComponents(comps, ds);
  }

  /** The same statement on the component lists. */
  lemma CommonOfComponents(comps: seq<seq<string>>, ds: seq<Path>)
    requires |ds| >= 1 && |comps| == |ds|
    requires forall j :: 0 <= j < |ds| ==> ValidPath(ds[j])
    requires forall j :: 0 <= j < |ds| ==> comps[j] == if ds[j] == [] then ["", ""] else [""] + ds[j]
    ensures var c := LongestCommonPrefix(comps);
      var m := LongestCommonPrefix(ds);
      (if c == [] then "/" else Join(c, "/")) ==
        if m != [] then Render(m)
        else if forall j :: 0 <= j < |ds| ==> ds[j] == [] then "/"
        else ""
  {
    var m := LongestCommonPrefix(ds);
    var c := LongestCommonPrefix(comps);
    if m != [] {
      CommonBelowRoot(comps, ds, m);
      JoinBelowRoot(m);
    } else if forall j :: 0 <= j < |ds| ==> ds[j] == [] {
      CommonAllRoot(comps);
      assert c == ["", ""];
      assert Join(["", ""], "/") == "/";
    } else {
      var j0 :| 0 <= j0 < |ds| && ds[j0] != [];
      CommonOnlyRoot(comps, ds, j0);
      assert c == [""];
    }
  }

  lemma JoinBelowRoot(m: Path)
    requires m != []
    ensures Join([""] + m, "/") == Render(m)
  {
    assert ([""] + m)[1..] == m;
  }

  lemma CommonBelowRoot(comps: seq<seq<string>>, ds: seq<Path>, m: Path)
    requires |ds| >= 1 && |comps| == |ds| && m != []
    requires IsCommonPrefix(m, ds) && CannotExtend(m, ds)
    requires forall j :: 0 <= j < |ds| ==> comps[j] == if ds[j] == [] then ["", ""] else [""] + ds[j]
    ensures LongestCommonPrefix(comps) == [""] + m
  {
    var c := [""] + m;
    forall j | 0 <= j < |comps| ensures IsPrefix(c, comps[j]) {
      assert IsPrefix(m, ds[j]);
      ConsPrefix("", m, ds[j]);
    }
    forall x ensures !IsCommonPrefix(c + [x], comps) {
      var j :| 0 <= j < |ds| && !IsPrefix(m + [x], ds[j]);
      ConcatAssoc([""], m, [x]);
      assert IsPrefix(m, ds[j]);
      ConsPrefix("", m + [x], ds[j]);
    }
    LongestUnique(c, comps);
  }

  lemma CommonAllRoot(comps: seq<seq<string>>)
    requires |comps| >= 1 && forall j :: 0 <= j < |comps| ==> comps[j] == ["", ""]
    ensures LongestCommonPrefix(comps) == ["", ""]
  {
    forall x ensures !IsCommonPrefix(["", ""] + [x], comps) {
      assert !IsPrefix(["", ""] + [x], comps[0]);
    }
    LongestUnique(["", ""], comps);
  }

  lemma CommonOnlyRoot(comps: seq<seq<string>>, ds: seq<Path>, j0: nat)
    requires |comps| == |ds| && j0 < |ds| && ds[j0] != [] && ValidComponent(ds[j0][0])
    requires CannotExtend([], ds)
    requires forall j :: 0 <= j < |ds| ==> comps[j] == if ds[j] == [] then ["", ""] else [""] + ds[j]
    ensures LongestCommonPrefix(comps) == [""]
  {
    var c: seq<string> := [""];
    var a := ds[j0][0];
    assert comps[j0] == [""] + ds[j0];
    assert a != "";
    forall j | 0 <= j < |comps| ensures IsPrefix(c, comps[j]) {
      assert comps[j][..1] == [""];
    }
    forall x ensures !IsCommonPrefix(c + [x], comps) {
      PairPrefix("", x, comps[j0]);
      if x == a {
        assert [] + [x] == [x];
        var j :| 0 <= j < |ds| && !IsPrefix([x], ds[j]);
        assert ds[j] == [] || ds[j][0] != x;
        PairPrefix("", x, comps[j]);
      }
    }
    LongestUnique(c, comps);
  }
}
