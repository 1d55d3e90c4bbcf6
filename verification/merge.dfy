/** `merge_and_deduplicate` (test/pyscripts/sitemap_priority_system.py) and
    its inline copies in api/generate.py and test_system_simple.py: records
    keyed by normalised URL, merged field by field with the later source
    winning, then re-labelled with the key.

    The merge itself does not depend on how keys are computed, so it is
    stated for any key function and then instantiated with `normalize_url`. */
module Merge {
  import opened Wrappers
  import opened Records
  import opened UrlNormalize
  import opened Strings
  import opened Seqs
  import Grouping

  type KeyFn = Record -> string

  /** The dictionary key of a record: `normalize_url(entry['url'])`. */
  function Key(e: Record): string {
    Normalize(e.url)
  }

  /** The `defaultdict(dict)` being filled: keys in insertion order (as a
      Python dict iterates them) and the accumulated entry per key. */
  datatype Table = Table(order: seq<string>, rows: map<string, Record>)

  ghost predicate Valid(t: Table) {
    Distinct(t.order) && (forall k :: k in t.rows <==> k in t.order)
  }

  const Empty: Table := Table([], map[])

  /** `merged[key(e)].update(e)`: every field of `e` overwrites, fields `e`
      lacks are kept. */
  function Absorb(t: Table, e: Record, key: KeyFn): Table {
    var k := key(e);
    if k in t.rows then Table(t.order, t.rows[k := Record(e.url, t.rows[k].metrics + e.metrics)])
    else Table(t.order + [k], t.rows[k := Record(e.url, e.metrics)])
  }

  /** The `for entry in data:` loop. */
  function AbsorbAll(t: Table, es: seq<Record>, key: KeyFn): Table
    decreases |es|
  {
    if es == [] then t else AbsorbAll(Absorb(t, es[0], key), es[1..], key)
  }

  /** The keys occurring in `es`. */
  function KeysOf(es: seq<Record>, key: KeyFn): set<string> {
    set e | e in es :: key(e)
  }

  /** Reference definition of field-level last-write-wins: the value of
      field `f` in the last record of `es` whose key is `k` and which has
      `f` at all. */
  function LastValue(es: seq<Record>, key: KeyFn, k: string, f: string): Option<real>
    decreases |es|
  {
    if es == [] then None
    else match LastValue(es[1..], key, k, f)
      case Some(v) => Some(v)
      case None => if key(es[0]) == k then Field(es[0], f) else None
  }

  /** A later value, if there is one, hides an earlier one. */
  function Later(earlier: Option<real>, later: Option<real>): Option<real> {
    if later.Some? then later else earlier
  }

  /** What the table already holds for field `f` of key `k`. */
  function Prior(t: Table, k: string, f: string): Option<real> {
    if k in t.rows then Field(t.rows[k], f) else None
  }

  lemma AbsorbValid(t: Table, e: Record, key: KeyFn)
    requires Valid(t)
    ensures Valid(Absorb(t, e, key))
    ensures Absorb(t, e, key).rows.Keys == t.rows.Keys + {key(e)}
    ensures t.order <= Absorb(t, e, key).order
    ensures forall k, f :: k != key(e) ==> Prior(Absorb(t, e, key), k, f) == Prior(t, k, f)
    ensures forall f :: Prior(Absorb(t, e, key), key(e), f) == Later(Prior(t, key(e), f), Field(e, f))
  {
    if key(e) !in t.rows {
      assert key(e) !in t.order;
    }
  }

  lemma KeysOfCons(es: seq<Record>, key: KeyFn)
    requires es != []
    ensures KeysOf(es, key) == {key(es[0])} + KeysOf(es[1..], key)
  {
    assert es == [es[0]] + es[1..];
    forall x | x in KeysOf(es, key)
      ensures x in {key(es[0])} + KeysOf(es[1..], key)
    {
      var e :| e in es && key(e) == x;
      if e != es[0] {
        assert e in es[1..];
      }
    }
  }

  lemma {:induction false} AbsorbAllSpec(t: Table, es: seq<Record>, key: KeyFn)
    requires Valid(t)
    ensures var r := AbsorbAll(t, es, key);
      && Valid(r)
      && r.rows.Keys == t.rows.Keys + KeysOf(es, key)
      && t.order <= r.order
      && forall k, f :: Prior(r, k, f) == Later(Prior(t, k, f), LastValue(es, key, k, f))
    decreases |es|
  {
    if es != [] {
      var t1 := Absorb(t, es[0], key);
      AbsorbValid(t, es[0], key);
      AbsorbAllSpec(t1, es[1..], key);
      KeysOfCons(es, key);
      var r := AbsorbAll(t, es, key);
      forall k, f
        ensures Prior(r, k, f) == Later(Prior(t, k, f), LastValue(es, key, k, f))
      {
        assert Prior(r, k, f) == Later(Prior(t1, k, f), LastValue(es[1..], key, k, f));
      }
    }
  }

  /** Reading the two sources one after the other is reading their
      concatenation. */
  lemma {:induction false} LastValueConcat(a: seq<Record>, b: seq<Record>, key: KeyFn, k: string, f: string)
    ensures LastValue(a + b, key, k, f) == Later(LastValue(a, key, k, f), LastValue(b, key, k, f))
    decreases |a|
  {
    if a == [] {
      assert a + b == b;
    } else {
      assert (a + b)[1..] == a[1..] + b;
      LastValueConcat(a[1..], b, key, k, f);
    }
  }

  lemma KeysOfConcat(a: seq<Record>, b: seq<Record>, key: KeyFn)
    ensures KeysOf(a + b, key) == KeysOf(a, key) + KeysOf(b, key)
  {
    forall x | x in KeysOf(a + b, key)
      ensures x in KeysOf(a, key) + KeysOf(b, key)
    {
      var e :| e in a + b && key(e) == x;
      if e in a {
        assert x in KeysOf(a, key);
      } else {
        assert x in KeysOf(b, key);
      }
    }
    forall x | x in KeysOf(a, key) + KeysOf(b, key)
      ensures x in KeysOf(a + b, key)
    {
      if x in KeysOf(a, key) {
        var e :| e in a && key(e) == x;
        assert e in a + b;
      } else {
        var e :| e in b && key(e) == x;
        assert e in a + b;
      }
    }
  }

  /** There are never more keys than records. */
  lemma {:induction false} KeysOfCard(es: seq<Record>, key: KeyFn)
    ensures |KeysOf(es, key)| <= |es|
  {
    if es != [] {
      KeysOfCard(es[1..], key);
      KeysOfCons(es, key);
    }
  }

  /** The table after both loops. */
  function Merged(gsc: seq<Record>, pe: seq<Record>, key: KeyFn): Table {
    AbsorbAll(AbsorbAll(Empty, gsc, key), pe, key)
  }

  lemma MergedSpec(gsc: seq<Record>, pe: seq<Record>, key: KeyFn)
    ensures var t := Merged(gsc, pe, key);
      && Valid(t)
      && t.rows.Keys == KeysOf(gsc + pe, key)
      && forall k, f :: Prior(t, k, f) == LastValue(gsc + pe, key, k, f)
  {
    var t1 := AbsorbAll(Empty, gsc, key);
    AbsorbAllSpec(Empty, gsc, key);
    var t := AbsorbAll(t1, pe, key);
    AbsorbAllSpec(t1, pe, key);
    KeysOfConcat(gsc, pe, key);
    forall k, f
      ensures Prior(t, k, f) == LastValue(gsc + pe, key, k, f)
    {
      LastValueConcat(gsc, pe, key, k, f);
    }
  }

  /** `for norm_url, data in merged.items(): data['url'] = norm_url`. */
  function Materialize(t: Table): seq<Record>
    requires Valid(t)
  {
    seq(|t.order|, i requires 0 <= i < |t.order| => Record(t.order[i], t.rows[t.order[i]].metrics))
  }

  lemma MaterializeSpec(t: Table)
    requires Valid(t)
    ensures var r := Materialize(t);
      && |r| == |t.order| == |t.rows.Keys|
      && (forall i :: 0 <= i < |r| ==> r[i].url == t.order[i])
      && (forall i, j :: 0 <= i < j < |r| ==> r[i].url != r[j].url)
      && (forall k :: k in t.rows ==> exists i :: 0 <= i < |r| && r[i].url == k)
      && (forall i, f :: 0 <= i < |r| ==> Field(r[i], f) == Prior(t, r[i].url, f))
  {
    var r := Materialize(t);
    forall k | k in t.rows
      ensures exists i :: 0 <= i < |r| && r[i].url == k
    {
      var i :| 0 <= i < |t.order| && t.order[i] == k;
      assert r[i].url == k;
    }
    DistinctCard(t.order);
    assert (set x | x in t.order) == t.rows.Keys;
  }

  /** The merge for any key function: one record per distinct key, in
      first-seen order (`MergeInFirstSeenOrder`), with `url` set to the key
      and each field holding the last value any source gave it. */
  function MergeBy(gsc: seq<Record>, pe: seq<Record>, key: KeyFn): (r: seq<Record>)
    ensures forall i, j :: 0 <= i < j < |r| ==> r[i].url != r[j].url
    ensures forall i :: 0 <= i < |r| ==> r[i].url in KeysOf(gsc + pe, key)
    ensures forall e :: e in gsc + pe ==> exists i :: 0 <= i < |r| && r[i].url == key(e)
    ensures forall i, f :: 0 <= i < |r| ==> Field(r[i], f) == LastValue(gsc + pe, key, r[i].url, f)
    ensures |r| == |KeysOf(gsc + pe, key)| <= |gsc| + |pe|
  {
    var t := Merged(gsc, pe, key);
    MergedSpec(gsc, pe, key);
    MaterializeSpec(t);
    KeysOfCard(gsc + pe, key);
    assert forall e :: e in gsc + pe ==> key(e) in t.rows;
    Materialize(t)
  }

  /** Absorbing two runs of records one after the other is absorbing their
      concatenation. */
  lemma {:induction false} AbsorbAllConcat(t: Table, a: seq<Record>, b: seq<Record>, key: KeyFn)
    ensures AbsorbAll(t, a + b, key) == AbsorbAll(AbsorbAll(t, a, key), b, key)
    decreases |a|
  {
    if a == [] {
      assert a + b == b;
    } else {
      assert (a + b)[1..] == a[1..] + b;
      AbsorbAllConcat(Absorb(t, a[0], key), a[1..], b, key);
    }
  }

  /** The table inserts its keys exactly where a grouping by the same key
      inserts them: both are dictionaries filled in one pass over `s`. */
  lemma {:induction false} AbsorbAllOrder(s: seq<Record>, key: KeyFn)
    ensures AbsorbAll(Empty, s, key).order == Grouping.GroupBy(s, key).order
    ensures forall k :: k in AbsorbAll(Empty, s, key).rows <==> k in Grouping.GroupBy(s, key).lists
    decreases |s|
  {
    if s != [] {
      var p, x := s[..|s| - 1], s[|s| - 1];
      assert s == p + [x];
      AbsorbAllOrder(p, key);
      AbsorbAllConcat(Empty, p, [x], key);
      var t := AbsorbAll(Empty, p, key);
      assert [x][1..] == [];
      assert AbsorbAll(Empty, s, key) == AbsorbAll(Absorb(t, x, key), [], key) == Absorb(t, x, key);
    }
  }

  /** The merged records come in the order their keys are first seen in
      the performance rows followed by the page-graph rows: the order in
      which `merged` acquired its keys. */
  lemma MergeInFirstSeenOrder(gsc: seq<Record>, pe: seq<Record>, key: KeyFn)
    ensures var r := MergeBy(gsc, pe, key);
      forall i, j :: 0 <= i < j < |r| ==>
        Grouping.FirstIndex(gsc + pe, key, r[i].url) < Grouping.FirstIndex(gsc + pe, key, r[j].url)
  {
    var s := gsc + pe;
    var t := Merged(gsc, pe, key);
    AbsorbAllConcat(Empty, gsc, pe, key);
    AbsorbAllOrder(s, key);
    MergedSpec(gsc, pe, key);
    MaterializeSpec(t);
    var r := MergeBy(gsc, pe, key);
    assert r == Materialize(t);
    forall i, j | 0 <= i < j < |r|
      ensures Grouping.FirstIndex(s, key, r[i].url) < Grouping.FirstIndex(s, key, r[j].url)
    {
      assert r[i].url == Grouping.GroupBy(s, key).order[i];
      assert r[j].url == Grouping.GroupBy(s, key).order[j];
      Grouping.KeyOrderAt(s, key, i, j);
    }
  }

  /** `merge_and_deduplicate(gsc_data, pe_data)`. */
  function MergeAndDeduplicate(gsc: seq<Record>, pe: seq<Record>): (r: seq<Record>)
    ensures forall i, j :: 0 <= i < j < |r| ==> r[i].url != r[j].url
    ensures forall i :: 0 <= i < |r| ==> exists e :: e in gsc + pe && Key(e) == r[i].url
    ensures forall e :: e in gsc + pe ==> exists i :: 0 <= i < |r| && r[i].url == Key(e)
    ensures forall i, f :: 0 <= i < |r| ==> Field(r[i], f) == LastValue(gsc + pe, Key, r[i].url, f)
    ensures |r| == |KeysOf(gsc + pe, Key)| <= |gsc| + |pe|
  {
    MergeBy(gsc, pe, Key)
  }

  lemma {:induction false} LastValueSome(es: seq<Record>, key: KeyFn, k: string, f: string)
    ensures LastValue(es, key, k, f).Some? <==> exists e :: e in es && key(e) == k && f in e.metrics
    decreases |es|
  {
    if es != [] {
      LastValueSome(es[1..], key, k, f);
      if LastValue(es[1..], key, k, f).Some? {
        var e :| e in es[1..] && key(e) == k && f in e.metrics;
        assert e in es;
      } else {
        assert es == [es[0]] + es[1..];
      }
    }
  }

  /** Field-level last-write-wins between the two sources: a field the
      page-graph source gives a URL takes that source's (last) value; a field
      only the performance source gives is kept from it; a field neither
      gives is absent. */
  lemma MergeFieldSources(gsc: seq<Record>, pe: seq<Record>, f: string)
    ensures forall r :: r in MergeAndDeduplicate(gsc, pe) ==>
      && (LastValue(pe, Key, r.url, f).Some? ==> Field(r, f) == LastValue(pe, Key, r.url, f))
      && (LastValue(pe, Key, r.url, f).None? ==> Field(r, f) == LastValue(gsc, Key, r.url, f))
      && ((exists e :: e in gsc && Key(e) == r.url && f in e.metrics) ==> f in r.metrics)
  {
    forall r | r in MergeAndDeduplicate(gsc, pe)
      ensures LastValue(pe, Key, r.url, f).Some? ==> Field(r, f) == LastValue(pe, Key, r.url, f)
      ensures LastValue(pe, Key, r.url, f).None? ==> Field(r, f) == LastValue(gsc, Key, r.url, f)
      ensures (exists e :: e in gsc && Key(e) == r.url && f in e.metrics) ==> f in r.metrics
    {
      LastValueConcat(gsc, pe, Key, r.url, f);
      LastValueSome(gsc, Key, r.url, f);
    }
  }

  /** Two records with different keys stay two records. */
  lemma MergePairApart(a: Record, b: Record, key: KeyFn)
    requires key(a) != key(b)
    ensures var r := MergeBy([a], [b], key);
      |r| == 2 && r[0].url == key(a) && r[1].url == key(b)
  {
    var t1 := AbsorbAll(Empty, [a], key);
    assert t1 == Absorb(Empty, a, key) by {
      assert [a][1..] == [];
      assert AbsorbAll(Absorb(Empty, a, key), [], key) == Absorb(Empty, a, key);
    }
    var t := AbsorbAll(t1, [b], key);
    assert t == Absorb(t1, b, key) by {
      assert [b][1..] == [];
      assert AbsorbAll(Absorb(t1, b, key), [], key) == Absorb(t1, b, key);
    }
    assert t == Table([key(a), key(b)], map[key(a) := Record(a.url, a.metrics), key(b) := Record(b.url, b.metrics)]);
  }

  /** Two records with one key become a single record whose fields are the
      first's, overwritten by the second's. */
  lemma MergePairJoin(a: Record, b: Record, key: KeyFn)
    requires key(a) == key(b)
    ensures MergeBy([a], [b], key) == [Record(key(a), a.metrics + b.metrics)]
  {
    var t1 := AbsorbAll(Empty, [a], key);
    assert t1 == Absorb(Empty, a, key) by {
      assert [a][1..] == [];
      assert AbsorbAll(Absorb(Empty, a, key), [], key) == Absorb(Empty, a, key);
    }
    var t := AbsorbAll(t1, [b], key);
    assert t == Absorb(t1, b, key) by {
      assert [b][1..] == [];
      assert AbsorbAll(Absorb(t1, b, key), [], key) == Absorb(t1, b, key);
    }
    assert t == Table([key(a)], map[key(a) := Record(b.url, a.metrics + b.metrics)]);
  }

  /** The bare root keeps its slash, so `https://x.com/` and
      `https://x.com` are two different keys and their fields are not
      combined. */
  lemma RootVariantsStayApart(scheme: string, host: string, m1: map<string, real>, m2: map<string, real>)
    requires IsSchemeName(scheme) && IsPlainHost(host) && host != ""
    requires NoUpper(scheme) && NoUpper(host)
    ensures |MergeAndDeduplicate([Record(scheme + "://" + host + "/", m1)], [Record(scheme + "://" + host, m2)])| == 2
  {
    var a := Record(scheme + "://" + host + "/", m1);
    var b := Record(scheme + "://" + host, m2);
    RootKeysDiffer(scheme, host);
    MergePairApart(a, b, Key);
  }

  lemma RootKeysDiffer(scheme: string, host: string)
    requires IsSchemeName(scheme) && IsPlainHost(host) && host != ""
    requires NoUpper(scheme) && NoUpper(host)
    ensures Normalize(scheme + "://" + host + "/") != Normalize(scheme + "://" + host)
  {
    NormalizeKeepsRoot(scheme, host);
    NormalizeKeepsBareHost(scheme, host);
    assert |scheme + "://" + host + "/"| != |scheme + "://" + host|;
  }

  /** Two spellings of one page, one with a trailing slash and a query,
      collapse to one merged record carrying both sources' fields. */
  lemma SlashAndQueryVariantsCollapse(scheme: string, host: string, path: string, tail: string,
                                      m1: map<string, real>, m2: map<string, real>)
    requires IsSchemeName(scheme) && IsPlainHost(host)
    requires |path| > 0 && path[0] == '/' && path[|path| - 1] != '/'
    requires '?' !in path && '#' !in path
    requires tail != [] && tail[0] in {'?', '#'}
    ensures var r := MergeAndDeduplicate([Record(scheme + "://" + host + path + "/" + tail, m1)],
                                         [Record(scheme + "://" + host + path, m2)]);
      |r| == 1 && r[0].metrics == m1 + m2
  {
    var a := Record(scheme + "://" + host + path + "/" + tail, m1);
    var b := Record(scheme + "://" + host + path, m2);
    NormalizeSlashQuery(scheme, host, path, tail);
    MergePairJoin(a, b, Key);
  }
}
