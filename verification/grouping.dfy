/** `groups = defaultdict(list); for x in xs: groups[key(x)].append(x)`,
    with the dictionary's insertion order kept as a sequence of keys. */
module Grouping {
  import opened Seqs

  datatype Groups<T, K> = Groups(order: seq<K>, lists: map<K, seq<T>>)

  /** One `append` of the loop. */
  function Add<T, K(==)>(g: Groups<T, K>, x: T, key: T -> K): Groups<T, K> {
    var k := key(x);
    if k in g.lists then Groups(g.order, g.lists[k := g.lists[k] + [x]])
    else Groups(g.order + [k], g.lists[k := [x]])
  }

  /** The whole loop, run over `s` from first to last. */
  function GroupBy<T, K(==)>(s: seq<T>, key: T -> K): Groups<T, K>
    decreases |s|
  {
    if s == [] then Groups([], map[])
    else Add(GroupBy(s[..|s| - 1], key), s[|s| - 1], key)
  }

  /** The number of elements held by the lists of `order`. */
  function Total<T, K>(order: seq<K>, lists: map<K, seq<T>>): nat
    decreases |order|
  {
    if order == [] then 0
    else (if order[0] in lists then |lists[order[0]]| else 0) + Total(order[1..], lists)
  }

  lemma {:induction false} TotalSnoc<T, K>(order: seq<K>, lists: map<K, seq<T>>, k: K)
    ensures Total(order + [k], lists) == Total(order, lists) + (if k in lists then |lists[k]| else 0)
    decreases |order|
  {
    if order == [] {
      assert [k][1..] == [];
    } else {
      assert (order + [k])[1..] == order[1..] + [k];
      TotalSnoc(order[1..], lists, k);
    }
  }

  /** Changing the list of a key outside `order` leaves the total alone. */
  lemma {:induction false} TotalOther<T, K>(order: seq<K>, lists: map<K, seq<T>>, k: K, l: seq<T>)
    requires k !in order
    ensures Total(order, lists[k := l]) == Total(order, lists)
    decreases |order|
  {
    if order != [] {
      TotalOther(order[1..], lists, k, l);
    }
  }

  /** Appending to the list of a key that occurs once in `order` adds one. */
  lemma {:induction false} TotalGrow<T, K>(order: seq<K>, lists: map<K, seq<T>>, k: K, x: T)
    requires Distinct(order) && k in order && k in lists
    ensures Total(order, lists[k := lists[k] + [x]]) == Total(order, lists) + 1
    decreases |order|
  {
    if order[0] == k {
      assert k !in order[1..];
      TotalOther(order[1..], lists, k, lists[k] + [x]);
    } else {
      assert Distinct(order[1..]);
      TotalGrow(order[1..], lists, k, x);
    }
  }

  /** One `append` keeps the key order free of repeats and in step with
      the dictionary, and adds one element to the total. */
  lemma AddKeepsShape<T, K>(h: Groups<T, K>, x: T, key: T -> K)
    requires Distinct(h.order) && forall j :: j in h.lists <==> j in h.order
    ensures var g := Add(h, x, key);
      && Distinct(g.order)
      && (forall j :: j in g.lists <==> j in g.order)
      && Total(g.order, g.lists) == Total(h.order, h.lists) + 1
  {
    var k := key(x);
    if k in h.lists {
      TotalGrow(h.order, h.lists, k, x);
    } else {
      assert k !in h.order;
      TotalOther(h.order, h.lists, k, [x]);
      TotalSnoc(h.order, h.lists[k := [x]], k);
    }
  }

  /** The loop's outcome: every key of `s` appears once in the key order,
      its list is exactly the elements of `s` with that key in their
      original order, and the lists together hold every element once. */
  lemma {:induction false} GroupBySpec<T, K>(s: seq<T>, key: T -> K)
    ensures var g := GroupBy(s, key);
      && Distinct(g.order)
      && g.lists.Keys == Image(s, key)
      && (forall k :: k in g.lists <==> k in g.order)
      && (forall k :: k in g.lists ==> g.lists[k] == Select(s, key, k))
      && Total(g.order, g.lists) == |s|
    decreases |s|
  {
    var g := GroupBy(s, key);
    if s == [] {
      assert Image(s, key) == {};
    } else {
      var p, x := s[..|s| - 1], s[|s| - 1];
      assert s == p + [x];
      var h := GroupBy(p, key);
      GroupBySpec(p, key);
      ImageSnoc(p, x, key);
      AddKeepsShape(h, x, key);
      var k := key(x);
      forall j | j in g.lists
        ensures g.lists[j] == Select(s, key, j)
      {
        SelectSnoc(p, x, key, j);
        if j == k && k !in h.lists {
          assert k !in Image(p, key);
          SelectAbsent(p, key, k);
        }
      }
    }
  }

  /** The position of the first element of `s` with key `k`, or `|s|` when
      no element has it. */
  function FirstIndex<T, K(==)>(s: seq<T>, key: T -> K, k: K): (n: nat)
    ensures n <= |s|
    ensures n < |s| ==> key(s[n]) == k
    ensures forall j :: 0 <= j < n ==> key(s[j]) != k
    decreases |s|
  {
    if s == [] then 0
    else if key(s[0]) == k then 0
    else 1 + FirstIndex(s[1..], key, k)
  }

  /** A key occurring in `s` is first seen inside `s`; one that does not
      is first seen past its end. */
  lemma FirstIndexImage<T, K>(s: seq<T>, key: T -> K, k: K)
    ensures k in Image(s, key) <==> FirstIndex(s, key, k) < |s|
  {
    if k in Image(s, key) {
      var x :| x in s && key(x) == k;
      var i :| 0 <= i < |s| && s[i] == x;
    }
  }

  /** Appending an element does not move the first sighting of a key
      already seen, and a new key is first seen at the appended element. */
  lemma FirstIndexSnoc<T, K>(p: seq<T>, x: T, key: T -> K, k: K)
    ensures FirstIndex(p, key, k) < |p| ==> FirstIndex(p + [x], key, k) == FirstIndex(p, key, k)
    ensures FirstIndex(p, key, k) == |p| && key(x) == k ==> FirstIndex(p + [x], key, k) == |p|
  {
    var s := p + [x];
    var n, m := FirstIndex(p, key, k), FirstIndex(s, key, k);
    if n < |p| {
      assert s[n] == p[n];
    } else if key(x) == k {
      assert s[|p|] == x;
    }
  }

  /** A key of the key order is the key of some element. */
  lemma OrderedKeySeen<T, K>(s: seq<T>, key: T -> K, k: K)
    requires k in GroupBy(s, key).order
    ensures k in Image(s, key)
  {
    GroupBySpec(s, key);
  }

  /** The key order is the order in which the keys are first seen in `s`:
      the `defaultdict`'s iteration order. */
  lemma {:induction false} GroupsInFirstSeenOrder<T, K>(s: seq<T>, key: T -> K)
    ensures var g := GroupBy(s, key);
      forall i, j :: 0 <= i < j < |g.order| ==> FirstIndex(s, key, g.order[i]) < FirstIndex(s, key, g.order[j])
    decreases |s|
  {
    if s != [] {
      var p, x := s[..|s| - 1], s[|s| - 1];
      assert s == p + [x];
      var h, g := GroupBy(p, key), GroupBy(s, key);
      GroupsInFirstSeenOrder(p, key);
      GroupBySpec(p, key);
      forall k | k in h.order
        ensures FirstIndex(s, key, k) == FirstIndex(p, key, k) < |p|
      {
        OrderedKeySeen(p, key, k);
        FirstIndexImage(p, key, k);
        FirstIndexSnoc(p, x, key, k);
      }
      if key(x) !in h.lists {
        FirstIndexImage(p, key, key(x));
        FirstIndexSnoc(p, x, key, key(x));
        assert g.order == h.order + [key(x)];
      }
    }
  }

  /** The first-seen order for one pair of positions of the key order. */
  lemma KeyOrderAt<T, K>(s: seq<T>, key: T -> K, i: int, j: int)
    requires 0 <= i < j < |GroupBy(s, key).order|
    ensures FirstIndex(s, key, GroupBy(s, key).order[i]) < FirstIndex(s, key, GroupBy(s, key).order[j])
  {
    GroupsInFirstSeenOrder(s, key);
  }

  /** No list is empty: a key is only created by appending to it. */
  lemma GroupsNonEmpty<T, K>(s: seq<T>, key: T -> K, k: K)
    requires k in GroupBy(s, key).lists
    ensures |GroupBy(s, key).lists[k]| > 0
  {
    GroupBySpec(s, key);
    var x :| x in s && key(x) == k;
  }

  /** Each element lands in the list of its own key and in no other. */
  lemma GroupsPartition<T, K>(s: seq<T>, key: T -> K, x: T, k: K)
    requires x in s
    ensures key(x) in GroupBy(s, key).lists && x in GroupBy(s, key).lists[key(x)]
    ensures k in GroupBy(s, key).lists && x in GroupBy(s, key).lists[k] ==> k == key(x)
  {
    GroupBySpec(s, key);
    var g := GroupBy(s, key);
    if k in g.lists && x in g.lists[k] {
      var l := g.lists[k];
      var i :| 0 <= i < |l| && l[i] == x;
    }
  }
}
