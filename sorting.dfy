/** The stable sorts of the extension: both `sortFilesByDepth` and the first
    step of `removeDuplicatePaths` sort a copy of a list with
    `Array.prototype.sort` and a numeric key comparator, which is stable. */
module Sorting {
  import opened Strings
  import opened Paths

  predicate SortedBy<T>(s: seq<T>, key: T -> int)
  {
    forall i, j :: 0 <= i < j < |s| ==> key(s[i]) <= key(s[j])
  }

  /** The elements of `s` whose key is `k`, in their order in `s`. */
  function WithKey<T>(s: seq<T>, key: T -> int, k: int): seq<T>
  {
    if s == [] then [] else (if key(s[0]) == k then [s[0]] else []) + WithKey(s[1..], key, k)
  }

  /** Puts `x` in front of the first element whose key is not smaller. */
  function Insert<T>(x: T, s: seq<T>, key: T -> int): seq<T>
  {
    if s == [] || key(x) <= key(s[0]) then [x] + s else [s[0]] + Insert(x, s[1..], key)
  }

  /** A stable sort of `s` by `key`. */
  function SortBy<T>(s: seq<T>, key: T -> int): seq<T>
  {
    if s == [] then [] else Insert(s[0], SortBy(s[1..], key), key)
  }

  lemma {:induction false} InsertPermutes<T>(x: T, s: seq<T>, key: T -> int)
    ensures multiset(Insert(x, s, key)) == multiset(s) + multiset{x}
  {
    if s != [] && key(x) > key(s[0]) {
      InsertPermutes(x, s[1..], key);
      assert s == [s[0]] + s[1..];
    }
  }

  lemma {:induction false} InsertSorted<T>(x: T, s: seq<T>, key: T -> int)
    requires SortedBy(s, key)
    ensures SortedBy(Insert(x, s, key), key)
  {
    if s != [] && key(x) > key(s[0]) {
      InsertSorted(x, s[1..], key);
      InsertPermutes(x, s[1..], key);
      var t := Insert(x, s[1..], key);
      forall j | 0 <= j < |t| ensures key(s[0]) <= key(t[j]) {
        assert t[j] in multiset(t);
        assert t[j] == x || t[j] in multiset(s[1..]);
        if t[j] != x {
          var m :| 0 <= m < |s[1..]| && s[1..][m] == t[j];
          assert s[m + 1] == t[j];
        }
      }
    }
  }

  lemma WithKeyCons<T>(a: T, t: seq<T>, key: T -> int, k: int)
    ensures WithKey([a] + t, key, k) == (if key(a) == k then [a] else []) + WithKey(t, key, k)
  {
    assert ([a] + t)[1..] == t;
  }

  lemma {:induction false} InsertWithKey<T>(x: T, s: seq<T>, key: T -> int, k: int)
    ensures WithKey(Insert(x, s, key), key, k) == (if key(x) == k then [x] else []) + WithKey(s, key, k)
  {
    if s == [] || key(x) <= key(s[0]) {
      WithKeyCons(x, s, key, k);
    } else {
      InsertWithKey(x, s[1..], key, k);
      WithKeyCons(s[0], Insert(x, s[1..], key), key, k);
      WithKeyCons(s[0], s[1..], key, k);
      assert [s[0]] + s[1..] == s;
    }
  }

  /** The sorted list is a permutation of its input, ordered by key, and
      elements with equal keys keep their input order. */
  lemma {:induction false} SortByCorrect<T>(s: seq<T>, key: T -> int)
    ensures multiset(SortBy(s, key)) == multiset(s)
    ensures SortedBy(SortBy(s, key), key)
    ensures forall k :: WithKey(SortBy(s, key), key, k) == WithKey(s, key, k)
  {
    if s != [] {
      SortByCorrect(s[1..], key);
      InsertPermutes(s[0], SortBy(s[1..], key), key);
      InsertSorted(s[0], SortBy(s[1..], key), key);
      assert s == [s[0]] + s[1..];
      forall k ensures WithKey(SortBy(s, key), key, k) == WithKey(s, key, k) {
        InsertWithKey(s[0], SortBy(s[1..], key), key, k);
      }
    }
  }

  /** Sorting what is already sorted changes nothing. */
  lemma {:induction false} SortBySorted<T>(s: seq<T>, key: T -> int)
    requires SortedBy(s, key)
    ensures SortBy(s, key) == s
  {
    if s != [] {
      assert SortedBy(s[1..], key);
      SortBySorted(s[1..], key);
    }
  }

  /** The depth `sortFilesByDepth` compares: the number of pieces of the path
      string split on `/`, after turning every `\` into `/`. */
  function Depth(s: string): (d: nat)
    ensures d == Count(SlashBackslashes(s), '/') + 1
  {
    |Split(SlashBackslashes(s), '/')|
  }

  function PathDepth(p: Path): int
  {
    Depth(Render(p))
  }

  /** `sortFilesByDepth`: a sorted copy by depth; the input is a value and is
      left as it was. */
  function SortFilesByDepth(paths: seq<Path>): (r: seq<Path>)
    ensures multiset(r) == multiset(paths)
    ensures forall i, j :: 0 <= i < j < |r| ==> Depth(Render(r[i])) <= Depth(Render(r[j]))
    ensures forall k :: WithKey(r, PathDepth, k) == WithKey(paths, PathDepth, k)
  {
    SortByCorrect(paths, PathDepth);
    SortBy(paths, PathDepth)
  }

  predicate NoBackslash(p: Path)
  {
    forall i :: 0 <= i < |p| ==> '\\' !in p[i]
  }

  /** For a valid path whose names hold no backslash, the string depth is one
      more than the number of components, except that `/` has depth 2 like a
      top-level entry. */
  lemma PathDepthOfComponents(p: Path)
    requires ValidPath(p) && NoBackslash(p)
    ensures PathDepth(p) == if p == [] then 2 else |p| + 1
  {
    var s := Render(p);
    if p != [] {
      JoinNotIn(p, "/", '\\');
    }
    NoBackslashUnchanged(s);
    if p != [] {
      CountConcat("/", Join(p, "/"), '/');
      CountJoin(p);
    }
  }

  lemma NoBackslashUnchanged(s: string)
    requires '\\' !in s
    ensures SlashBackslashes(s) == s
  {
  }

  lemma {:induction false} CountConcat(a: string, b: string, c: char)
    ensures Count(a + b, c) == Count(a, c) + Count(b, c)
  {
    if a != [] {
      CountConcat(a[1..], b, c);
      assert (a + b)[1..] == a[1..] + b;
    } else {
      assert a + b == b;
    }
  }

  lemma {:induction false} CountNone(s: string, c: char)
    requires c !in s
    ensures Count(s, c) == 0
  {
    if s != [] {
      assert s[1..] == s[1..] && forall k :: 0 <= k < |s[1..]| ==> s[1..][k] == s[k + 1];
      CountNone(s[1..], c);
    }
  }

  lemma {:induction false} CountJoin(p: Path)
    requires |p| >= 1 && forall i :: 0 <= i < |p| ==> '/' !in p[i]
    ensures Count(Join(p, "/"), '/') == |p| - 1
  {
    CountNone(p[0], '/');
    if |p| > 1 {
      CountJoin(p[1..]);
      CountConcat(p[0] + "/", Join(p[1..], "/"), '/');
      CountConcat(p[0], "/", '/');
    }
  }
}
