/** The three array operations the ledger is built from, as JavaScript defines them:
    `filter` (keep the elements a predicate accepts, in order), `map` (apply a function
    to every element) and the left fold `reduce((acc, x) => acc + f(x), 0)`. */
module Seqs {

  /** `s.filter(p)`: the elements of `s` that satisfy `p`, each as often as it occurs in `s`. */
  function Filter<T(==,!new)>(s: seq<T>, p: T -> bool): (r: seq<T>)
    ensures |r| <= |s|
    ensures forall x :: x in r <==> x in s && p(x)
    ensures forall x :: multiset(r)[x] == if p(x) then multiset(s)[x] else 0
  {
    if s == [] then []
    else
      assert s == [s[0]] + s[1..];
      if p(s[0]) then [s[0]] + Filter(s[1..], p) else Filter(s[1..], p)
  }

  /** `s.map(f)`. */
  function Map<T, U>(s: seq<T>, f: T -> U): (r: seq<U>)
    ensures |r| == |s|
    ensures forall i :: 0 <= i < |s| ==> r[i] == f(s[i])
  {
    if s == [] then [] else [f(s[0])] + Map(s[1..], f)
  }

  /** `s.reduce((acc, x) => acc + f(x), 0)`: a left fold that starts at 0. */
  function Sum<T>(s: seq<T>, f: T -> int): int
  {
    if s == [] then 0 else Sum(s[..|s| - 1], f) + f(s[|s| - 1])
  }

  /** `a` is obtained from `b` by deleting elements: what `b` keeps, it keeps in order. */
  ghost predicate IsSubsequence<T(!new)>(a: seq<T>, b: seq<T>)
    decreases |b|
  {
    a == [] || (b != [] && ((a[0] == b[0] && IsSubsequence(a[1..], b[1..])) || IsSubsequence(a, b[1..])))
  }

  /** No two positions of `s` carry the same key. */
  ghost predicate Unique<T, K>(s: seq<T>, key: T -> K)
  {
    forall i, j :: 0 <= i < j < |s| ==> key(s[i]) != key(s[j])
  }

  /** The set of keys that occur in `s`. */
  ghost function Keys<T, K>(s: seq<T>, key: T -> K): set<K>
  {
    set i | 0 <= i < |s| :: key(s[i])
  }

  lemma {:induction false} FilterIsSubsequence<T(!new)>(s: seq<T>, p: T -> bool)
    ensures IsSubsequence(Filter(s, p), s)
  {
    if s != [] {
      FilterIsSubsequence(s[1..], p);
      var r := Filter(s[1..], p);
      if p(s[0]) {
        assert Filter(s, p) == [s[0]] + r;
        assert ([s[0]] + r)[1..] == r;
      } else {
        assert Filter(s, p) == r;
      }
    }
  }

  /** One step of `Filter` on a list written as head and tail. */
  lemma FilterCons<T(!new)>(x: T, s: seq<T>, p: T -> bool)
    ensures Filter([x] + s, p) == if p(x) then [x] + Filter(s, p) else Filter(s, p)
  {
    assert ([x] + s)[0] == x && ([x] + s)[1..] == s;
  }

  /** Filtering an already filtered sequence with the same predicate changes nothing. */
  lemma {:induction false} FilterIdempotent<T(!new)>(s: seq<T>, p: T -> bool)
    ensures Filter(Filter(s, p), p) == Filter(s, p)
  {
    if s != [] {
      FilterIdempotent(s[1..], p);
      if p(s[0]) {
        var r := Filter(s[1..], p);
        assert ([s[0]] + r)[0] == s[0];
        assert ([s[0]] + r)[1..] == r;
      }
    }
  }

  /** When every element is accepted, filtering is the identity. */
  lemma {:induction false} FilterAll<T(!new)>(s: seq<T>, p: T -> bool)
    requires forall i :: 0 <= i < |s| ==> p(s[i])
    ensures Filter(s, p) == s
  {
    if s != [] {
      FilterAll(s[1..], p);
      assert s == [s[0]] + s[1..];
    }
  }

  /** Two sequences with the same members are both empty or both not. */
  lemma SameMembersEmpty<T>(a: seq<T>, b: seq<T>)
    requires forall x :: x in a <==> x in b
    ensures a == [] <==> b == []
  {
    if a != [] {
      assert a[0] in b;
    }
    if b != [] {
      assert b[0] in a;
    }
  }

  /** When no element is accepted, filtering leaves nothing. */
  lemma {:induction false} FilterNone<T(!new)>(s: seq<T>, p: T -> bool)
    requires forall i :: 0 <= i < |s| ==> !p(s[i])
    ensures Filter(s, p) == []
  {
    if s != [] {
      FilterNone(s[1..], p);
    }
  }

  lemma {:induction false} FilterConcat<T(!new)>(a: seq<T>, b: seq<T>, p: T -> bool)
    ensures Filter(a + b, p) == Filter(a, p) + Filter(b, p)
  {
    if a == [] {
      assert a + b == b;
    } else {
      assert (a + b)[0] == a[0];
      assert (a + b)[1..] == a[1..] + b;
      FilterConcat(a[1..], b, p);
    }
  }

  lemma {:induction false} SumConcat<T>(a: seq<T>, b: seq<T>, f: T -> int)
    ensures Sum(a + b, f) == Sum(a, f) + Sum(b, f)
  {
    if b == [] {
      assert a + b == a;
    } else {
      var c := a + b;
      assert c[..|c| - 1] == a + b[..|b| - 1];
      assert c[|c| - 1] == b[|b| - 1];
      SumConcat(a, b[..|b| - 1], f);
    }
  }

  /** Taking one element out of the sum. */
  lemma SumRemove<T>(b: seq<T>, k: nat, f: T -> int)
    requires k < |b|
    ensures Sum(b, f) == Sum(b[..k] + b[k + 1..], f) + f(b[k])
  {
    var front, x, back := b[..k], b[k], b[k + 1..];
    SplitAt(b, k);
    SumConcat(front + [x], back, f);
    SumConcat(front, [x], f);
    SumSingleton(x, f);
    SumConcat(front, back, f);
  }

  lemma SplitAt<T>(b: seq<T>, k: nat)
    requires k < |b|
    ensures b == (b[..k] + [b[k]]) + b[k + 1..]
  {
  }

  lemma SumSingleton<T>(x: T, f: T -> int)
    ensures Sum([x], f) == f(x)
  {
    assert [x][..0] == [];
  }

  lemma MultisetRemove<T>(b: seq<T>, k: nat)
    requires k < |b|
    ensures multiset(b[..k] + b[k + 1..]) == multiset(b) - multiset{b[k]}
  {
    assert b == b[..k] + [b[k]] + b[k + 1..];
  }

  /** The sum does not depend on the order of the elements. */
  lemma {:induction false} SumPermutation<T(!new)>(a: seq<T>, b: seq<T>, f: T -> int)
    requires multiset(a) == multiset(b)
    ensures Sum(a, f) == Sum(b, f)
    decreases |a|
  {
    if a == [] {
      assert |b| == |multiset(b)| == 0;
    } else {
      var n := |a| - 1;
      var x := a[n];
      assert x in multiset(b) by {
        assert x in multiset(a);
      }
      var k :| 0 <= k < |b| && b[k] == x;
      var rest := b[..k] + b[k + 1..];
      MultisetRemove(a, n);
      MultisetRemove(b, k);
      assert a[..n] + a[n + 1..] == a[..n];
      SumPermutation(a[..n], rest, f);
      SumRemove(b, k, f);
    }
  }

  lemma UniqueCons<T, K>(x: T, s: seq<T>, key: T -> K)
    ensures Unique([x] + s, key) <==> key(x) !in Keys(s, key) && Unique(s, key)
  {
    var c := [x] + s;
    if Unique(c, key) {
      forall i, j | 0 <= i < j < |s| ensures key(s[i]) != key(s[j]) {
        assert c[i + 1] == s[i] && c[j + 1] == s[j];
      }
      forall j | 0 <= j < |s| ensures key(s[j]) != key(x) {
        assert c[0] == x && c[j + 1] == s[j];
      }
    }
    if key(x) !in Keys(s, key) && Unique(s, key) {
      forall i, j | 0 <= i < j < |c| ensures key(c[i]) != key(c[j]) {
        if i == 0 {
          assert c[j] == s[j - 1];
          assert key(s[j - 1]) in Keys(s, key);
        } else {
          assert c[i] == s[i - 1] && c[j] == s[j - 1];
        }
      }
    }
  }

  lemma KeysCons<T, K>(x: T, s: seq<T>, key: T -> K)
    ensures Keys([x] + s, key) == {key(x)} + Keys(s, key)
  {
    var c := [x] + s;
    forall k | k in Keys(c, key) ensures k in {key(x)} + Keys(s, key) {
      var i :| 0 <= i < |c| && key(c[i]) == k;
      if i > 0 {
        assert c[i] == s[i - 1];
      }
    }
    forall k | k in Keys(s, key) ensures k in Keys(c, key) {
      var i :| 0 <= i < |s| && key(s[i]) == k;
      assert c[i + 1] == s[i];
    }
    assert c[0] == x;
  }

  lemma {:induction false} FilterKeys<T(!new), K>(s: seq<T>, p: T -> bool, key: T -> K)
    ensures Keys(Filter(s, p), key) <= Keys(s, key)
  {
    var r := Filter(s, p);
    forall k | k in Keys(r, key) ensures k in Keys(s, key) {
      var i :| 0 <= i < |r| && key(r[i]) == k;
      assert r[i] in s;
      var j :| 0 <= j < |s| && s[j] == r[i];
    }
  }

  lemma {:induction false} FilterKeepsUnique<T(!new), K>(s: seq<T>, p: T -> bool, key: T -> K)
    requires Unique(s, key)
    ensures Unique(Filter(s, p), key)
  {
    if s != [] {
      assert s == [s[0]] + s[1..];
      UniqueCons(s[0], s[1..], key);
      FilterKeepsUnique(s[1..], p, key);
      if p(s[0]) {
        FilterKeys(s[1..], p, key);
        UniqueCons(s[0], Filter(s[1..], p), key);
      }
    }
  }

  /** Mapping with a function that keeps every key keeps the key set. */
  lemma MapKeys<T, K>(s: seq<T>, f: T -> T, key: T -> K)
    requires forall i :: 0 <= i < |s| ==> key(f(s[i])) == key(s[i])
    ensures Keys(Map(s, f), key) == Keys(s, key)
    ensures Unique(s, key) ==> Unique(Map(s, f), key)
  {
    var r := Map(s, f);
    forall k | k in Keys(s, key) ensures k in Keys(r, key) {
      var i :| 0 <= i < |s| && key(s[i]) == k;
      assert key(r[i]) == k;
    }
    forall k | k in Keys(r, key) ensures k in Keys(s, key) {
      var i :| 0 <= i < |r| && key(r[i]) == k;
      assert key(s[i]) == k;
    }
  }
}
