/** Absolute POSIX paths as sequences of components, with the operations of
    Node's `path` module that the extension uses (`dirname`, `basename`,
    `join`, `relative`) and its containment test `isPathContained`. */
module Paths {
  import opened Strings
  import opened Wrappers

  /** An absolute, normalised path: `[]` is `/`, `["a", "b"]` is `/a/b`. */
  type Path = seq<string>

  /** A name a directory entry can have. */
  predicate ValidComponent(n: string)
  {
    n != [] && '/' !in n && n != "." && n != ".."
  }

  predicate ValidPath(p: Path)
  {
    forall i :: 0 <= i < |p| ==> ValidComponent(p[i])
  }

  /** The path as the string Node passes around. */
  function Render(p: Path): string
  {
    if p == [] then "/" else "/" + Join(p, "/")
  }

  /** The path string of a child is its parent's string (nothing for the
      root), a `/` and the child's name. */
  lemma RenderSnoc(p: Path, c: string)
    ensures Render(p + [c]) == (if p == [] then [] else Render(p)) + ("/" + c)
  {
    assert Join([c], "/") == c;
    if p == [] {
      assert p + [c] == [c];
    } else {
      JoinAppend(p, [c], "/");
      var j := Join(p, "/");
      assert Render(p + [c]) == "/" + (j + "/" + c);
      assert "/" + (j + "/" + c) == ("/" + j) + ("/" + c);
    }
  }

  /** `path.dirname`: the root is its own parent. */
  function Dirname(p: Path): (r: Path)
    ensures p == [] ==> r == []
    ensures p != [] ==> |r| == |p| - 1 && r == p[..|p| - 1]
  {
    if p == [] then [] else p[..|p| - 1]
  }

  /** `path.basename`: the last component, the empty string for the root. */
  function Basename(p: Path): string
  {
    if p == [] then [] else p[|p| - 1]
  }

  /** `path.join(dir, name)` for an entry name read from `dir`. */
  function JoinPath(dir: Path, name: string): (r: Path)
    ensures |r| == |dir| + 1 && r[..|dir|] == dir && Basename(r) == name && Dirname(r) == dir
  {
    dir + [name]
  }

  predicate IsPrefix(a: Path, b: Path)
  {
    |a| <= |b| && b[..|a|] == a
  }

  predicate IsStrictPrefix(a: Path, b: Path)
  {
    |a| < |b| && b[..|a|] == a
  }

  /** Number of leading components `a` and `b` share. */
  function CommonPrefixLength(a: Path, b: Path): (k: nat)
    ensures k <= |a| && k <= |b| && a[..k] == b[..k]
    ensures k < |a| && k < |b| ==> a[k] != b[k]
  {
    if a == [] || b == [] || a[0] != b[0] then 0
    else
      var k := 1 + CommonPrefixLength(a[1..], b[1..]);
      assert a[..k] == [a[0]] + a[1..][..k - 1];
      assert b[..k] == [b[0]] + b[1..][..k - 1];
      k
  }

  function Repeat(s: string, n: nat): (r: seq<string>)
    ensures |r| == n && forall i :: 0 <= i < n ==> r[i] == s
  {
    if n == 0 then [] else [s] + Repeat(s, n - 1)
  }

  /** `path.relative(from, to)` for normalised absolute paths: one `..` per
      component of `from` below the common prefix, then the rest of `to`. */
  function Relative(from: Path, to: Path): string
  {
    var k := CommonPrefixLength(from, to);
    Join(Repeat("..", |from| - k) + to[k..], "/")
  }

  /** `isPathContained(parent, child)`: the relative path is non-empty and does
      not start with the two characters `..`. */
  predicate IsPathContained(parent: Path, child: Path)
  {
    var rel := Relative(parent, child);
    !StartsWith(rel, "..") && rel != []
  }

  /** A non-empty join starts with its first part. */
  lemma {:induction false} JoinStartsWithFirst(parts: seq<string>, sep: string)
    requires |parts| >= 1
    ensures StartsWith(Join(parts, sep), parts[0])
    ensures |parts| == 1 ==> Join(parts, sep) == parts[0]
    ensures |parts| > 1 ==> Join(parts, sep) == parts[0] + sep + Join(parts[1..], sep)
  {
  }

  /** The relative path from a proper ancestor is the remaining components
      joined by `/`. */
  lemma RelativeFromAncestor(a: Path, b: Path)
    requires IsPrefix(a, b)
    ensures Relative(a, b) == Join(b[|a|..], "/")
  {
    var k := CommonPrefixLength(a, b);
    assert k == |a|;
    assert Repeat("..", 0) + b[k..] == b[|a|..];
  }

  /** What containment means on components: `child` lies strictly below
      `parent`, and its first component below `parent` does not begin with
      `..` (a name like `..cache` defeats the string test). */
  lemma ContainedIff(parent: Path, child: Path)
    requires ValidPath(parent) && ValidPath(child)
    ensures IsPathContained(parent, child) <==>
            IsStrictPrefix(parent, child) && !StartsWith(child[|parent|], "..")
  {
    var k := CommonPrefixLength(parent, child);
    if k < |parent| {
      DivergingNotContained(parent, child);
    } else if k == |child| {
      assert Repeat("..", |parent| - k) + child[k..] == [];
    } else {
      BelowContained(parent, child);
    }
  }

  /** When `child` leaves `parent` before its end, the relative path starts
      with `..`. */
  lemma DivergingNotContained(parent: Path, child: Path)
    requires CommonPrefixLength(parent, child) < |parent|
    ensures !IsPathContained(parent, child) && !IsStrictPrefix(parent, child)
  {
    var k := CommonPrefixLength(parent, child);
    var parts := Repeat("..", |parent| - k) + child[k..];
    assert parts[0] == "..";
    JoinStartsWithFirst(parts, "/");
    assert k < |child| ==> parent[k] != child[k];
    assert !IsStrictPrefix(parent, child) by {
      assert |parent| >= |child| || k == |child| || child[..|parent|][k] != parent[k];
    }
  }

  /** When `child` lies strictly below `parent`, the relative path starts with
      the first component below `parent`. */
  lemma BelowContained(parent: Path, child: Path)
    requires ValidPath(child)
    requires CommonPrefixLength(parent, child) == |parent| < |child|
    ensures IsStrictPrefix(parent, child)
    ensures IsPathContained(parent, child) <==> !StartsWith(child[|parent|], "..")
  {
    var k := |parent|;
    var parts := Repeat("..", 0) + child[k..];
    var rel := Relative(parent, child);
    assert rel == Join(parts, "/");
    assert parts == child[k..] && parts[0] == child[k];
    var c := child[k];
    assert ValidComponent(c);
    JoinStartsWithFirst(parts, "/");
    assert rel != [];
    if |c| == 1 {
      assert c != "." && c == [c[0]];
      assert rel[0] == c[0] != '.';
      assert !StartsWith(rel, "..");
      assert !StartsWith(c, "..");
    } else {
      assert rel[..2] == c[..2];
    }
  }

  /** A path never contains itself, so two equal selections are both kept. */
  lemma ContainedIrreflexive(p: Path)
    ensures !IsPathContained(p, p)
  {
    var k := CommonPrefixLength(p, p);
    assert k == |p|;
    assert Repeat("..", 0) + p[k..] == [];
  }

  /** Containment is transitive on valid paths. */
  lemma ContainedTransitive(a: Path, b: Path, c: Path)
    requires ValidPath(a) && ValidPath(b) && ValidPath(c)
    requires IsPathContained(a, b) && IsPathContained(b, c)
    ensures IsPathContained(a, c)
  {
    ContainedIff(a, b);
    ContainedIff(b, c);
    ContainedIff(a, c);
    assert c[..|b|][..|a|] == c[..|a|];
    assert c[|a|] == c[..|b|][|a|] == b[|a|];
  }

  /** Turns a string back into a path: absolute paths split on `/` with empty
      segments dropped, as Node normalises them; the empty string and relative
      strings, which Node resolves against the working directory, give `None`. */
  function ParsePath(s: string): Option<Path>
  {
    if s == [] || s[0] != '/' then None else Some(NonEmpty(Split(s[1..], '/')))
  }

  function NonEmpty(parts: seq<string>): (r: seq<string>)
    ensures forall i :: 0 <= i < |r| ==> r[i] != [] && r[i] in parts
    ensures (forall i :: 0 <= i < |parts| ==> parts[i] != []) ==> r == parts
  {
    if parts == [] then []
    else if parts[0] == [] then NonEmpty(parts[1..])
    else [parts[0]] + NonEmpty(parts[1..])
  }

  /** Parsing inverts rendering. */
  lemma RenderParse(p: Path)
    requires ValidPath(p)
    ensures ParsePath(Render(p)) == Some(p)
  {
    if p == [] {
      assert Render(p)[1..] == [];
    } else {
      assert Render(p)[1..] == Join(p, "/");
      SplitJoin(p, '/');
    }
  }

  /** Different valid paths render differently, so comparing rendered strings
      is comparing paths. */
  lemma RenderInjective(p: Path, q: Path)
    requires ValidPath(p) && ValidPath(q) && Render(p) == Render(q)
    ensures p == q
  {
    RenderParse(p);
    RenderParse(q);
  }
}
