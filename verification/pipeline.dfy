/** The merge → score → sort → group sequence: the body of the upload
    handler in api/generate.py, `test_system` in test_system_simple.py, and
    the per-cluster file names of `main` in
    test/pyscripts/sitemap_priority_system.py. */
module Pipeline {
  import opened Seqs
  import opened Records
  import opened Merge
  import opened Priority
  import opened Cluster
  import opened Sorting
  import opened Grouping

  /** A merged record after `data['priority'] = ...` and
      `data['cluster'] = ...`. */
  datatype Scored = Scored(url: string, metrics: map<string, real>, priority: real, cluster: Cluster)

  function PriorityOf(s: Scored): real { s.priority }

  function ClusterOf(s: Scored): string { s.cluster.Name() }

  function Score(r: Record): Scored {
    Scored(r.url, r.metrics, CalculatePriority(r), AssignCluster(r.url))
  }

  /** Scoring keeps the record's url and metrics. */
  lemma ScoreKeepsRecord(e: Record)
    ensures Record(Score(e).url, Score(e).metrics) == e
  {
  }

  function ScoreAll(rs: seq<Record>): (r: seq<Scored>)
    ensures |r| == |rs|
    ensures forall i :: 0 <= i < |rs| ==> r[i] == Score(rs[i])
  {
    seq(|rs|, i requires 0 <= i < |rs| => Score(rs[i]))
  }

  /** A permutation of a list with pairwise distinct urls has pairwise
      distinct urls. */
  lemma PermutationKeepsUrlsDistinct(a: seq<Scored>, b: seq<Scored>)
    requires multiset(a) == multiset(b)
    requires forall i, j :: 0 <= i < j < |a| ==> a[i].url != a[j].url
    ensures forall i, j :: 0 <= i < j < |b| ==> b[i].url != b[j].url
  {
    assert Distinct(a);
    PermutationDistinct(a, b);
    forall i, j | 0 <= i < j < |b|
      ensures b[i].url != b[j].url
    {
      assert b[i] in multiset(a) && b[j] in multiset(a);
      var i' :| 0 <= i' < |a| && a[i'] == b[i];
      var j' :| 0 <= j' < |a| && a[j'] == b[j];
      assert i' != j';
    }
  }

  /** Scoring, clustering and the descending sort of a merged list. */
  function ScoreAndSort(merged: seq<Record>): (r: seq<Scored>)
    ensures SortedDesc(r, PriorityOf)
    ensures multiset(r) == multiset(ScoreAll(merged))
    ensures |r| == |merged|
  {
    SortDesc(ScoreAll(merged), PriorityOf)
  }

  /** Every item of the sorted list is one merged record with the priority
      and cluster computed from it; URLs distinct before are distinct
      after. */
  lemma ScoreAndSortItems(merged: seq<Record>)
    ensures var r := ScoreAndSort(merged);
      && (forall i :: 0 <= i < |r| ==> Record(r[i].url, r[i].metrics) in merged)
      && (forall i :: 0 <= i < |r| ==> r[i] == Score(Record(r[i].url, r[i].metrics)))
      && (forall i :: 0 <= i < |r| ==> 0.1 <= r[i].priority <= 1.0)
    ensures (forall i, j :: 0 <= i < j < |merged| ==> merged[i].url != merged[j].url) ==>
      var r := ScoreAndSort(merged);
      forall i, j :: 0 <= i < j < |r| ==> r[i].url != r[j].url
  {
    var r := ScoreAndSort(merged);
    if forall i, j :: 0 <= i < j < |merged| ==> merged[i].url != merged[j].url {
      PermutationKeepsUrlsDistinct(ScoreAll(merged), r);
    }
    forall i | 0 <= i < |r|
      ensures Record(r[i].url, r[i].metrics) in merged && r[i] == Score(Record(r[i].url, r[i].metrics))
    {
      ScoreAndSortItem(merged, i);
    }
  }

  /** One item of the sorted list comes from one merged record. */
  lemma ScoreAndSortItem(merged: seq<Record>, i: int)
    requires 0 <= i < |merged|
    ensures var x := ScoreAndSort(merged)[i];
      Record(x.url, x.metrics) in merged && x == Score(Record(x.url, x.metrics))
  {
    var scored := ScoreAll(merged);
    var r := ScoreAndSort(merged);
    PermutedItem(scored, r, i);
    var j :| 0 <= j < |scored| && scored[j] == r[i];
    ScoreKeepsRecord(merged[j]);
  }

  /** Every URL of the merged list is the URL of some item of the sorted
      list. */
  lemma ScoreAndSortCovers(merged: seq<Record>, j: int)
    requires 0 <= j < |merged|
    ensures var r := ScoreAndSort(merged);
      exists i :: 0 <= i < |r| && r[i].url == merged[j].url
  {
    var scored := ScoreAll(merged);
    var r := ScoreAndSort(merged);
    assert scored[j] in multiset(r);
    var i :| 0 <= i < |r| && r[i] == scored[j];
  }

  /** The handler's `result` list: merged records, scored and clustered,
      sorted by priority, highest first. */
  function ProcessUpload(gsc: seq<Record>, pe: seq<Record>): (r: seq<Scored>)
    ensures SortedDesc(r, PriorityOf)
    ensures |r| == |KeysOf(gsc + pe, Key)|
  {
    ScoreAndSort(MergeAndDeduplicate(gsc, pe))
  }

  /** Every item of the result is one merged record with the priority and
      cluster computed from it, and no two items share a URL. */
  lemma ResultItems(gsc: seq<Record>, pe: seq<Record>)
    ensures var r := ProcessUpload(gsc, pe);
      && (forall i, j :: 0 <= i < j < |r| ==> r[i].url != r[j].url)
      && (forall i :: 0 <= i < |r| ==> Record(r[i].url, r[i].metrics) in MergeAndDeduplicate(gsc, pe))
      && (forall i :: 0 <= i < |r| ==> r[i] == Score(Record(r[i].url, r[i].metrics)))
      && (forall i :: 0 <= i < |r| ==> 0.1 <= r[i].priority <= 1.0)
  {
    ScoreAndSortItems(MergeAndDeduplicate(gsc, pe));
  }

  /** For any key function, every input record's key is the URL of some
      item of the sorted merge. */
  lemma CoversInputsBy(gsc: seq<Record>, pe: seq<Record>, key: KeyFn, e: Record)
    requires e in gsc + pe
    ensures var r := ScoreAndSort(MergeBy(gsc, pe, key));
      exists i :: 0 <= i < |r| && r[i].url == key(e)
  {
    var merged := MergeBy(gsc, pe, key);
    var j :| 0 <= j < |merged| && merged[j].url == key(e);
    ScoreAndSortCovers(merged, j);
  }

  /** Every input record's normalised URL is the URL of some result item. */
  lemma ResultCoversInputs(gsc: seq<Record>, pe: seq<Record>, e: Record)
    requires e in gsc + pe
    ensures var r := ProcessUpload(gsc, pe);
      exists i :: 0 <= i < |r| && r[i].url == Key(e)
  {
    assert ProcessUpload(gsc, pe) == ScoreAndSort(MergeBy(gsc, pe, Key));
    CoversInputsBy(gsc, pe, Key, e);
  }

  /** The handler's JSON reply, without its timestamp. */
  datatype Response = Response(gscUrls: nat, peUrls: nat, mergedUrls: nat, sample: seq<Scored>)

  /** `result[:10] if result else []`. */
  function Sample(r: seq<Scored>): (s: seq<Scored>)
    ensures |s| == if |r| < 10 then |r| else 10
    ensures s <= r
  {
    if |r| == 0 then [] else if |r| < 10 then r else r[..10]
  }

  /** The reply: the input counts, the number of distinct normalised URLs,
      and the ten highest-priority records. */
  function HandleUpload(gsc: seq<Record>, pe: seq<Record>): (resp: Response)
    ensures resp.gscUrls == |gsc| && resp.peUrls == |pe|
    ensures resp.mergedUrls == |KeysOf(gsc + pe, Key)| <= |gsc| + |pe|
    ensures |resp.sample| == (if resp.mergedUrls < 10 then resp.mergedUrls else 10)
    ensures resp.sample <= ProcessUpload(gsc, pe)
    ensures forall i, j :: 0 <= i < j < |resp.sample| ==> resp.sample[i].priority >= resp.sample[j].priority
  {
    var r := ProcessUpload(gsc, pe);
    SampleSorted(r);
    Response(|gsc|, |pe|, |r|, Sample(r))
  }

  /** A prefix of a list sorted by priority is sorted by priority. */
  lemma SampleSorted(r: seq<Scored>)
    requires SortedDesc(r, PriorityOf)
    ensures forall i, j :: 0 <= i < j < |Sample(r)| ==> Sample(r)[i].priority >= Sample(r)[j].priority
  {
    var s := Sample(r);
    forall i, j | 0 <= i < j < |s|
      ensures s[i].priority >= s[j].priority
    {
      assert s[i] == r[i] && s[j] == r[j];
      assert PriorityOf(r[i]) >= PriorityOf(r[j]);
    }
  }

  /** `test_system` stops with a failure when nothing was merged; that
      cannot happen once the performance source has a row. */
  lemma NonEmptyInputGivesResult(gsc: seq<Record>, pe: seq<Record>)
    requires |gsc| > 0
    ensures |ProcessUpload(gsc, pe)| > 0
  {
    assert gsc[0] in gsc + pe;
    ResultCoversInputs(gsc, pe, gsc[0]);
  }

  /** `clusters[item['cluster']].append(item)` over the sorted result. */
  function ClusterGroups(r: seq<Scored>): Groups<Scored, string> {
    GroupBy(r, ClusterOf)
  }

  /** One cluster's list: a known label, not empty, still sorted. */
  lemma ClusterList(r: seq<Scored>, k: string)
    requires SortedDesc(r, PriorityOf) && k in ClusterGroups(r).lists
    ensures k in Labels && |ClusterGroups(r).lists[k]| > 0
    ensures SortedDesc(ClusterGroups(r).lists[k], PriorityOf)
  {
    GroupBySpec(r, ClusterOf);
    var x :| x in r && ClusterOf(x) == k;
    GroupsNonEmpty(r, ClusterOf, k);
    SelectKeepsSorted(r, PriorityOf, ClusterOf, k);
  }

  /** Grouping a list sorted by priority puts every item in the list of
      its own cluster and no other, the cluster sizes add up to the number
      of items, every label is one of the six, and each cluster's list
      keeps the descending priority order. */
  lemma ClustersOfSorted(r: seq<Scored>)
    requires SortedDesc(r, PriorityOf)
    ensures var g := ClusterGroups(r);
      && Total(g.order, g.lists) == |r|
      && (forall k :: k in g.lists ==> k in Labels && |g.lists[k]| > 0)
      && (forall k :: k in g.lists ==> SortedDesc(g.lists[k], PriorityOf))
      && (forall x, k :: x in r && k in g.lists && x in g.lists[k] ==> k == ClusterOf(x))
      && (forall x :: x in r ==> ClusterOf(x) in g.lists && x in g.lists[ClusterOf(x)])
  {
    var g := ClusterGroups(r);
    GroupBySpec(r, ClusterOf);
    forall k | k in g.lists
      ensures k in Labels && |g.lists[k]| > 0 && SortedDesc(g.lists[k], PriorityOf)
    {
      ClusterList(r, k);
    }
    forall x, k | x in r && k in g.lists && x in g.lists[k]
      ensures k == ClusterOf(x)
    {
      GroupsPartition(r, ClusterOf, x, k);
    }
    forall x | x in r
      ensures ClusterOf(x) in g.lists && x in g.lists[ClusterOf(x)]
    {
      GroupsPartition(r, ClusterOf, x, ClusterOf(x));
    }
  }

  /** The file name `main` appends for a cluster. */
  function SitemapFile(cluster: string): string { cluster + "-sitemap.xml" }

  lemma SuffixInjective(a: string, b: string, suffix: string)
    requires a + suffix == b + suffix
    ensures a == b
  {
    assert |a| == |b|;
    assert a == (a + suffix)[..|a|];
  }

  /** `sitemap_files.append(f"{cluster}-sitemap.xml")` per cluster: one
      name per cluster, in cluster order, no two alike. */
  function SitemapFiles(clusters: seq<string>): (files: seq<string>)
    requires Distinct(clusters)
    ensures |files| == |clusters|
    ensures forall i :: 0 <= i < |files| ==> files[i] == clusters[i] + "-sitemap.xml"
    ensures Distinct(files)
  {
    var files := seq(|clusters|, i requires 0 <= i < |clusters| => SitemapFile(clusters[i]));
    assert Distinct(files) by {
      forall i, j | 0 <= i < j < |files|
        ensures files[i] != files[j]
      {
        if files[i] == files[j] {
          SuffixInjective(clusters[i], clusters[j], "-sitemap.xml");
        }
      }
    }
    files
  }
}
