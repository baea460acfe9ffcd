/** Generic facts about sequences. Stated once for any element type, they
    spare the verifier from expanding the equality of sequences of strings or
    paths where they are used. */
module Seqs {

  lemma ConcatAssoc<T>(a: seq<T>, b: seq<T>, c: seq<T>)
    ensures a + (b + c) == (a + b) + c
  {
  }

  lemma AppendEmpty<T>(s: seq<T>)
    ensures s + [] == s
  {
  }

  /** The prefix of length `i + 1` is the prefix of length `i` and `s[i]`. */
  lemma TakeSnoc<T>(s: seq<T>, i: nat)
    requires i < |s|
    ensures |s[..i + 1]| == i + 1
    ensures s[..i + 1][..i] == s[..i] && s[..i + 1][i] == s[i]
  {
  }

  lemma TakeAll<T>(s: seq<T>)
    ensures s[..|s|] == s
  {
  }

  lemma DropConcat<T>(a: seq<T>, b: seq<T>)
    ensures (a + b)[|a|..] == b
  {
  }

  lemma TakeConcat<T>(a: seq<T>, b: seq<T>)
    ensures (a + b)[..|a|] == a
  {
  }

  lemma DropFirstConcat<T>(a: seq<T>, b: seq<T>)
    requires |a| >= 1
    ensures (a + b)[0] == a[0] && (a + b)[1..] == a[1..] + b
  {
  }

  /** Cutting position `k` out of `[x] + r` keeps `x` and cuts position
      `k - 1` out of `r`. */
  lemma CutCons<T>(x: T, r: seq<T>, k: nat)
    requires 1 <= k <= |r|
    ensures ([x] + r)[..k] + ([x] + r)[k + 1..] == [x] + (r[..k - 1] + r[k..])
  {
    assert ([x] + r)[..k] == [x] + r[..k - 1];
    assert ([x] + r)[k + 1..] == r[k..];
  }

  /** Cutting the first position out of `[x] + r` leaves `r`. */
  lemma CutFirst<T>(x: T, r: seq<T>)
    ensures ([x] + r)[..0] + ([x] + r)[1..] == r
  {
    assert ([x] + r)[1..] == r;
  }

  /** A common first element does not change whether one sequence is a
      prefix of another. */
  lemma ConsPrefix<T>(h: T, m: seq<T>, d: seq<T>)
    ensures (|[h] + m| <= |[h] + d| && ([h] + d)[..|[h] + m|] == [h] + m) <==> (|m| <= |d| && d[..|m|] == m)
  {
    if |m| <= |d| {
      assert ([h] + d)[..|[h] + m|] == [h] + d[..|m|];
      assert ([h] + d[..|m|])[1..] == d[..|m|] && ([h] + m)[1..] == m;
    }
  }

  lemma SplitLast<T>(s: seq<T>)
    requires s != []
    ensures s[..|s| - 1] + [s[|s| - 1]] == s
  {
  }

  /** Appending to `q` leaves its first `k` elements alone. */
  lemma TakeOfSnoc<T>(q: seq<T>, k: nat, x: T)
    requires k <= |q|
    ensures (q + [x])[..k] == q[..k]
  {
  }

  lemma DropOfSnoc<T>(q: seq<T>, k: nat, x: T)
    requires k <= |q|
    ensures (q + [x])[k..] == q[k..] + [x]
  {
  }

  /** A prefix of `q` is a prefix of `q + [x]`. */
  lemma PrefixOfSnoc<T>(s: seq<T>, q: seq<T>, x: T)
    requires |s| <= |q| && q[..|s|] == s
    ensures |s| <= |q + [x]| && (q + [x])[..|s|] == s
  {
    TakeOfSnoc(q, |s|, x);
  }

  /** Some element satisfies `P` exactly when some element before the last
      does or the last one does. */
  lemma ExistsSnoc<T>(s: seq<T>, P: T -> bool)
    requires s != []
    ensures (exists i :: 0 <= i < |s| && P(s[i])) <==>
      (exists i :: 0 <= i < |s| - 1 && P(s[i])) || P(s[|s| - 1])
  {
  }

  /** `s` has the two-element prefix `[a, b]` exactly when it starts with
      `a` and then `b`. */
  lemma PairPrefix<T>(a: T, b: T, s: seq<T>)
    ensures (|[a] + [b]| <= |s| && s[..|[a] + [b]|] == [a] + [b]) <==> (|s| >= 2 && s[0] == a && s[1] == b)
  {
    if |s| >= 2 && s[0] == a && s[1] == b {
      assert s[..2] == [a] + [b];
    }
  }

  lemma TakeDrop<T>(s: seq<T>, k: nat)
    requires k <= |s|
    ensures s[..k] + s[k..] == s
  {
  }

  /** A property of `a` and of every element of `d` and `f` holds for every
      element of `[a] + d + f`. */
  lemma AllOfThree<T>(a: T, d: seq<T>, f: seq<T>, P: T -> bool)
    requires P(a) && (forall i :: 0 <= i < |d| ==> P(d[i])) && (forall i :: 0 <= i < |f| ==> P(f[i]))
    ensures forall i :: 0 <= i < |[a] + d + f| ==> P(([a] + d + f)[i])
  {
    forall i | 0 <= i < |[a] + d + f| ensures P(([a] + d + f)[i]) {
      if i == 0 {
      } else if i <= |d| {
        assert ([a] + d + f)[i] == d[i - 1];
      } else {
        assert ([a] + d + f)[i] == f[i - 1 - |d|];
      }
    }
  }
  /** `s.map(f).filter(keep)`. */
  function MapFilter<A, B>(s: seq<A>, f: A -> B, keep: B -> bool): seq<B>
  {
    if s == [] then [] else (if keep(f(s[0])) then [f(s[0])] else []) + MapFilter(s[1..], f, keep)
  }

  /** The kept values are the images of the elements that pass the filter. */
  lemma {:induction false} MapFilterMembers<A, B>(s: seq<A>, f: A -> B, keep: B -> bool)
    ensures forall y :: y in MapFilter(s, f, keep) <==> exists i :: 0 <= i < |s| && y == f(s[i]) && keep(y)
  {
    if s != [] {
      var rest := s[1..];
      MapFilterMembers(rest, f, keep);
      forall y
        ensures y in MapFilter(s, f, keep) <==> exists i :: 0 <= i < |s| && y == f(s[i]) && keep(y)
      {
        if y in MapFilter(rest, f, keep) {
          var j :| 0 <= j < |rest| && y == f(rest[j]) && keep(y);
          assert s[j + 1] == rest[j];
        }
        if exists i :: 0 <= i < |s| && y == f(s[i]) && keep(y) {
          var i :| 0 <= i < |s| && y == f(s[i]) && keep(y);
          if i > 0 {
            assert rest[i - 1] == s[i];
          }
        }
      }
    }
  }

  /** Mapping and filtering commutes with concatenation. */
  lemma {:induction false} MapFilterAppend<A, B>(a: seq<A>, b: seq<A>, f: A -> B, keep: B -> bool)
    ensures MapFilter(a + b, f, keep) == MapFilter(a, f, keep) + MapFilter(b, f, keep)
  {
    if a == [] {
      assert a + b == b;
    } else {
      var h := if keep(f(a[0])) then [f(a[0])] else [];
      assert (a + b)[0] == a[0] && (a + b)[1..] == a[1..] + b;
      MapFilterAppend(a[1..], b, f, keep);
      ConcatAssoc(h, MapFilter(a[1..], f, keep), MapFilter(b, f, keep));
    }
  }
}
