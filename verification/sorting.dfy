/** `list.sort(key=..., reverse=True)`: Python's sort is stable also when
    reversed, so its result is the unique arrangement that is non-increasing
    in the key and keeps elements with equal keys in their input order.
    That arrangement is what the insertion sort below computes. */
module Sorting {
  import opened Seqs

  predicate SortedDesc<T>(s: seq<T>, score: T -> real) {
    forall i, j :: 0 <= i < j < |s| ==> score(s[i]) >= score(s[j])
  }

  /** Puts `x` in front of the first element whose score does not exceed
      its own, so that it stays ahead of the later equal-scored elements. */
  function Insert<T>(x: T, s: seq<T>, score: T -> real): (r: seq<T>)
    ensures multiset(r) == multiset(s) + multiset{x}
    ensures |r| == |s| + 1
    decreases |s|
  {
    if s == [] || score(s[0]) <= score(x) then [x] + s
    else
      assert s == [s[0]] + s[1..];
      [s[0]] + Insert(x, s[1..], score)
  }

  /** Inserting into a non-increasing list keeps it non-increasing. */
  lemma {:induction false} InsertSorted<T>(x: T, s: seq<T>, score: T -> real)
    requires SortedDesc(s, score)
    ensures SortedDesc(Insert(x, s, score), score)
    decreases |s|
  {
    var r := Insert(x, s, score);
    if s == [] || score(s[0]) <= score(x) {
      assert r == [x] + s;
      forall i, j | 0 <= i < j < |r|
        ensures score(r[i]) >= score(r[j])
      {
        assert r[j] == s[j - 1];
        if i > 0 {
          assert r[i] == s[i - 1];
        }
      }
    } else {
      var rest := Insert(x, s[1..], score);
      assert SortedDesc(s[1..], score);
      InsertSorted(x, s[1..], score);
      assert r == [s[0]] + rest;
      forall i, j | 0 <= i < j < |r|
        ensures score(r[i]) >= score(r[j])
      {
        assert r[j] == rest[j - 1];
        if i == 0 {
          assert rest[j - 1] in multiset(rest);
          if rest[j - 1] != x {
            HeadBoundsRest(s, score, rest[j - 1]);
          }
        } else {
          assert r[i] == rest[i - 1];
        }
      }
    }
  }

  /** The stable descending sort. */
  function SortDesc<T>(s: seq<T>, score: T -> real): (r: seq<T>)
    ensures multiset(r) == multiset(s)
    ensures |r| == |s|
    ensures SortedDesc(r, score)
    decreases |s|
  {
    if s == [] then []
    else
      assert s == [s[0]] + s[1..];
      var rest := SortDesc(s[1..], score);
      InsertSorted(s[0], rest, score);
      Insert(s[0], rest, score)
  }

  lemma {:induction false} InsertSelect<T>(x: T, s: seq<T>, score: T -> real, v: real)
    requires SortedDesc(s, score)
    ensures Select(Insert(x, s, score), score, v) == (if score(x) == v then [x] else []) + Select(s, score, v)
    decreases |s|
  {
    if s == [] || score(s[0]) <= score(x) {
      SelectCons(x, s, score, v);
    } else {
      var rest := Insert(x, s[1..], score);
      assert SortedDesc(s[1..], score);
      InsertSelect(x, s[1..], score, v);
      SelectCons(s[0], rest, score, v);
      SelectCons(s[0], s[1..], score, v);
      assert s == [s[0]] + s[1..];
      if score(s[0]) == v {
        assert score(x) != v;
      }
    }
  }

  /** Stability: among the elements of any one score the sort keeps the
      input order. */
  lemma {:induction false} SortStable<T>(s: seq<T>, score: T -> real, v: real)
    ensures Select(SortDesc(s, score), score, v) == Select(s, score, v)
    decreases |s|
  {
    if s != [] {
      SortStable(s[1..], score, v);
      InsertSelect(s[0], SortDesc(s[1..], score), score, v);
    }
  }

  /** A list already in non-increasing order is left as it is; in
      particular a list whose elements all share one score. */
  lemma {:induction false} SortKeepsSorted<T>(s: seq<T>, score: T -> real)
    requires SortedDesc(s, score)
    ensures SortDesc(s, score) == s
    decreases |s|
  {
    if s != [] {
      assert SortedDesc(s[1..], score);
      SortKeepsSorted(s[1..], score);
      assert s == [s[0]] + s[1..];
    }
  }

  lemma SortUniformIsIdentity<T>(s: seq<T>, score: T -> real, v: real)
    requires forall i :: 0 <= i < |s| ==> score(s[i]) == v
    ensures SortDesc(s, score) == s
  {
    SortKeepsSorted(s, score);
  }

  /** In a non-increasing list the head scores at least as much as any
      later element. */
  lemma HeadBoundsRest<T>(s: seq<T>, score: T -> real, x: T)
    requires SortedDesc(s, score) && |s| > 0 && x in s[1..]
    ensures score(s[0]) >= score(x)
  {
    var j :| 0 <= j < |s[1..]| && s[1..][j] == x;
    assert s[j + 1] == x;
  }

  /** Keeping only the elements of one key (of any kind) preserves
      non-increasing order. */
  lemma {:induction false} SelectKeepsSorted<T, K>(s: seq<T>, score: T -> real, key: T -> K, k: K)
    requires SortedDesc(s, score)
    ensures SortedDesc(Select(s, key, k), score)
    decreases |s|
  {
    if s != [] {
      assert SortedDesc(s[1..], score);
      SelectKeepsSorted(s[1..], score, key, k);
      SelectMembers(s[1..], key, k);
      var tail := Select(s[1..], key, k);
      var sel := Select(s, key, k);
      if key(s[0]) == k {
        assert sel == [s[0]] + tail;
        forall i, j | 0 <= i < j < |sel|
          ensures score(sel[i]) >= score(sel[j])
        {
          assert sel[j] == tail[j - 1];
          if i == 0 {
            HeadBoundsRest(s, score, tail[j - 1]);
          } else {
            assert sel[i] == tail[i - 1];
          }
        }
      } else {
        assert sel == tail;
      }
    }
  }
}
