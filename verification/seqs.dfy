/** Sequence vocabulary shared by the merge, the sort and the grouping. */
module Seqs {
  predicate Distinct<T(==)>(s: seq<T>) {
    forall i, j :: 0 <= i < j < |s| ==> s[i] != s[j]
  }

  /** A sequence without repeats has as many elements as its set. */
  lemma {:induction false} DistinctCard<T>(s: seq<T>)
    requires Distinct(s)
    ensures |set x | x in s| == |s|
  {
    if s != [] {
      var rest := s[1..];
      assert Distinct(rest);
      DistinctCard(rest);
      assert (set x | x in s) == {s[0]} + (set x | x in rest);
      assert s[0] !in rest;
    }
  }

  /** Without repeats every element occurs once. */
  lemma {:induction false} DistinctCounts<T>(s: seq<T>)
    requires Distinct(s)
    ensures forall x :: multiset(s)[x] <= 1
  {
    if s != [] {
      assert Distinct(s[1..]);
      DistinctCounts(s[1..]);
      assert s == [s[0]] + s[1..];
      assert s[0] !in s[1..];
    }
  }

  lemma CountsDistinct<T>(s: seq<T>)
    requires forall x :: multiset(s)[x] <= 1
    ensures Distinct(s)
  {
    forall i, j | 0 <= i < j < |s|
      ensures s[i] != s[j]
    {
      assert s == s[..j] + [s[j]] + s[j + 1..];
      assert s[..j] == s[..i] + [s[i]] + s[i + 1..j];
      assert multiset(s)[s[i]] >= 1 + (if s[j] == s[i] then 1 else 0);
    }
  }

  /** Rearranging a sequence without repeats introduces none. */
  lemma PermutationDistinct<T>(a: seq<T>, b: seq<T>)
    requires multiset(a) == multiset(b) && Distinct(a)
    ensures Distinct(b)
  {
    DistinctCounts(a);
    CountsDistinct(b);
  }

  /** Every element of a permutation sits somewhere in the original. */
  lemma PermutedItem<T>(a: seq<T>, b: seq<T>, i: int)
    requires multiset(a) == multiset(b) && 0 <= i < |b|
    ensures exists j :: 0 <= j < |a| && a[j] == b[i]
  {
    assert b[i] in multiset(b);
    assert b[i] in a;
  }

  /** The elements of `s` whose key is `v`, in their order in `s`. */
  function Select<T, K(==)>(s: seq<T>, key: T -> K, v: K): (r: seq<T>)
    ensures |r| <= |s|
    ensures forall i :: 0 <= i < |r| ==> key(r[i]) == v
    decreases |s|
  {
    if s == [] then []
    else (if key(s[0]) == v then [s[0]] else []) + Select(s[1..], key, v)
  }

  /** The selection holds the elements of `s` with key `v` and nothing
      else. */
  lemma {:induction false} SelectMembers<T, K>(s: seq<T>, key: T -> K, v: K)
    ensures forall x :: x in Select(s, key, v) ==> x in s
    ensures forall x :: x in s && key(x) == v ==> x in Select(s, key, v)
    decreases |s|
  {
    if s != [] {
      SelectMembers(s[1..], key, v);
      SelectCons(s[0], s[1..], key, v);
      assert s == [s[0]] + s[1..];
    }
  }

  /** Two keys that agree on every element select the same elements. */
  lemma {:induction false} SelectSameKey<T, K>(s: seq<T>, k1: T -> K, k2: T -> K, v: K)
    requires forall x :: x in s ==> k1(x) == k2(x)
    ensures Select(s, k1, v) == Select(s, k2, v)
    decreases |s|
  {
    if s != [] {
      assert s[0] in s;
      assert forall x :: x in s[1..] ==> x in s;
      SelectSameKey(s[1..], k1, k2, v);
    }
  }

  /** When every element has the key, nothing is dropped. */
  lemma {:induction false} SelectAll<T, K>(s: seq<T>, key: T -> K, v: K)
    requires forall i :: 0 <= i < |s| ==> key(s[i]) == v
    ensures Select(s, key, v) == s
    decreases |s|
  {
    if s != [] {
      SelectAll(s[1..], key, v);
    }
  }

  /** The keys occurring in `s`. */
  ghost function Image<T, K>(s: seq<T>, key: T -> K): set<K> {
    set x | x in s :: key(x)
  }

  lemma {:induction false} SelectConcat<T, K>(a: seq<T>, b: seq<T>, key: T -> K, v: K)
    ensures Select(a + b, key, v) == Select(a, key, v) + Select(b, key, v)
    decreases |a|
  {
    if a == [] {
      assert a + b == b;
    } else {
      assert (a + b)[1..] == a[1..] + b;
      SelectConcat(a[1..], b, key, v);
    }
  }

  /** Selecting from `[x] + t` looks at `x` and then at `t`. */
  lemma SelectCons<T, K>(x: T, t: seq<T>, key: T -> K, v: K)
    ensures Select([x] + t, key, v) == (if key(x) == v then [x] else []) + Select(t, key, v)
  {
    assert ([x] + t)[1..] == t;
  }

  /** Appending one element extends exactly the selection of its own key. */
  lemma SelectSnoc<T, K>(s: seq<T>, x: T, key: T -> K, v: K)
    ensures Select(s + [x], key, v) == Select(s, key, v) + (if key(x) == v then [x] else [])
  {
    SelectConcat(s, [x], key, v);
    assert [x][1..] == [];
  }

  /** A key that occurs nowhere selects nothing. */
  lemma {:induction false} SelectAbsent<T, K>(s: seq<T>, key: T -> K, v: K)
    requires v !in Image(s, key)
    ensures Select(s, key, v) == []
    decreases |s|
  {
    if s != [] {
      assert s[0] in s;
      assert forall x :: x in s[1..] ==> x in s;
      SelectAbsent(s[1..], key, v);
    }
  }

  lemma ImageSnoc<T, K>(s: seq<T>, x: T, key: T -> K)
    ensures Image(s + [x], key) == Image(s, key) + {key(x)}
  {
    forall k | k in Image(s + [x], key)
      ensures k in Image(s, key) + {key(x)}
    {
      var y :| y in s + [x] && key(y) == k;
      if y != x {
        assert y in s;
      }
    }
    forall k | k in Image(s, key)
      ensures k in Image(s + [x], key)
    {
      var y :| y in s && key(y) == k;
      assert y in s + [x];
    }
    assert x in s + [x];
  }
}
