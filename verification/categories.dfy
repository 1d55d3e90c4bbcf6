/** `categorize_url` of test/pyscripts/restructure_sitemap_fixed.py: a
    case-sensitive rule chain over the URL with the site root removed,
    giving one of six sitemap files and that file's fixed priority. */
module Categories {
  import opened Wrappers
  import opened Strings
  import Cluster

  /** The site root `categorize_url` deletes from a URL. */
  const SiteRoot: string := "https://www.namesilo.com"

  datatype Category = BlogMap | SupportMap | SeoMap | TldsMap | ToolsMap | MiscMap {
    /** The sitemap file the category is written to. */
    function File(): string {
      match this
      case BlogMap => "blog-sitemap.xml"
      case SupportMap => "support-sitemap.xml"
      case SeoMap => "seo-sitemap.xml"
      case TldsMap => "tlds-sitemap.xml"
      case ToolsMap => "tools-sitemap.xml"
      case MiscMap => "misc-sitemap.xml"
    }

    /** The category's priority, counted in hundredths. */
    function Hundredths(): (h: nat)
      ensures 50 <= h <= 100 && h % 10 == 0
    {
      match this
      case BlogMap => 80
      case SupportMap => 60
      case SeoMap => 100
      case TldsMap => 90
      case ToolsMap => 70
      case MiscMap => 50
    }

    /** The priority `categorize_url` returns with the file. */
    function Priority(): (p: real)
      ensures p in {0.5, 0.6, 0.7, 0.8, 0.9, 1.0}
    {
      Hundredths() as real / 100.0
    }
  }

  /** The six file names. */
  const Files: seq<string> := ["blog-sitemap.xml", "support-sitemap.xml", "seo-sitemap.xml",
    "tlds-sitemap.xml", "tools-sitemap.xml", "misc-sitemap.xml"]

  /** Reads a file name back to its category; the inverse of `File`. */
  function CategoryOfFile(name: string): (r: Option<Category>)
    ensures r.Some? <==> name in Files
  {
    if name == "blog-sitemap.xml" then Some(BlogMap)
    else if name == "support-sitemap.xml" then Some(SupportMap)
    else if name == "seo-sitemap.xml" then Some(SeoMap)
    else if name == "tlds-sitemap.xml" then Some(TldsMap)
    else if name == "tools-sitemap.xml" then Some(ToolsMap)
    else if name == "misc-sitemap.xml" then Some(MiscMap)
    else None
  }

  lemma FileRoundTrip(c: Category, name: string)
    ensures c.File() in Files && CategoryOfFile(c.File()) == Some(c)
    ensures name in Files ==> CategoryOfFile(name).value.File() == name
  {
  }

  /** Different categories write to different files, so the file name
      decides the priority. */
  lemma FileInjective(c1: Category, c2: Category)
    ensures c1.File() == c2.File() <==> c1 == c2
    ensures c1.File() == c2.File() ==> c1.Priority() == c2.Priority()
  {
    FileRoundTrip(c1, c1.File());
    FileRoundTrip(c2, c2.File());
  }

  const DomainsPrefix: string := "/domains/"

  /** The tld rule read directly: after `/domains/` comes a non-empty
      segment with no further `/`. */
  predicate IsTldPath(path: string) {
    StartsWith(path, DomainsPrefix) && |path| > |DomainsPrefix| && '/' !in path[|DomainsPrefix|..]
  }

  /** `re.match(r'^/domains/[^/]+$', path)` as the regular expression
      engine runs it: the prefix, a run of non-`/` characters ending at
      `k`, then `$`, which matches at the end of the text or just before a
      final newline. */
  predicate TldRegexEndsAt(path: string, k: int) {
    |DomainsPrefix| < k <= |path| && StartsWith(path, DomainsPrefix)
    && (forall j :: |DomainsPrefix| <= j < k ==> path[j] != '/')
    && (k == |path| || (k == |path| - 1 && path[k] == '\n'))
  }

  ghost predicate TldRegexMatch(path: string) {
    exists k :: TldRegexEndsAt(path, k)
  }

  /** The regular expression accepts exactly the paths of `IsTldPath`: the
      newline allowance of `$` adds nothing, because `[^/]` also matches a
      newline. */
  lemma TldRegexIff(path: string)
    ensures TldRegexMatch(path) <==> IsTldPath(path)
  {
    var n := |DomainsPrefix|;
    if TldRegexMatch(path) {
      var k :| TldRegexEndsAt(path, k);
      forall j | n <= j < |path|
        ensures path[j] != '/'
      {
        if j >= k {
          assert path[j] == '\n';
        }
      }
      assert forall i :: 0 <= i < |path[n..]| ==> path[n..][i] == path[n + i];
    }
    if IsTldPath(path) {
      forall j | n <= j < |path|
        ensures path[j] != '/'
      {
        assert path[j] == path[n..][j - n];
      }
      assert TldRegexEndsAt(path, |path|);
    }
  }

  /** The `if`/`elif` chain on the path, letter case kept. */
  function CategorizePath(path: string): Category {
    if Contains(path, "/blog/") then BlogMap
    else if Contains(path, "/support/") then SupportMap
    else if Cluster.IsSeo(path) then SeoMap
    else if IsTldPath(path) then TldsMap
    else if Cluster.IsTool(path) then ToolsMap
    else MiscMap
  }

  /** `categorize_url(url)`: the rules see the URL with every occurrence of
      the site root deleted. First match wins: each category is chosen
      exactly when its rule matches that path and no earlier rule does. */
  function CategorizeUrl(url: string): (c: Category)
    ensures c.File() in Files
    ensures var path := RemoveAll(url, SiteRoot);
      var blog, support := Contains(path, "/blog/"), Contains(path, "/support/");
      var seo, tld, tool := Cluster.IsSeo(path), IsTldPath(path), Cluster.IsTool(path);
      && (c == BlogMap <==> blog)
      && (c == SupportMap <==> !blog && support)
      && (c == SeoMap <==> !blog && !support && seo)
      && (c == TldsMap <==> !blog && !support && !seo && tld)
      && (c == ToolsMap <==> !blog && !support && !seo && !tld && tool)
      && (c == MiscMap <==> !blog && !support && !seo && !tld && !tool)
  {
    FileRoundTrip(CategorizePath(RemoveAll(url, SiteRoot)), "");
    CategorizePath(RemoveAll(url, SiteRoot))
  }

  /** A path `/domains/domain-…` with one segment fits the tld rule, but
      the earlier seo rule claims it (unless the blog or support rule does
      first): it is never filed as a tld. */
  lemma DomainDashIsSeo(rest: string)
    requires '/' !in rest
    ensures IsTldPath(DomainsPrefix + "domain-" + rest)
    ensures CategorizePath(DomainsPrefix + "domain-" + rest) != TldsMap
    ensures var p := DomainsPrefix + "domain-" + rest;
      !Contains(p, "/blog/") && !Contains(p, "/support/") ==> CategorizePath(p) == SeoMap
  {
    var p := DomainsPrefix + "domain-" + rest;
    var n := |DomainsPrefix|;
    assert p[..n] == DomainsPrefix;
    assert p[n..] == "domain-" + rest;
    assert '/' !in "domain-";
    assert OccursAt(p, "/domain-", n - 1) by {
      assert p[n - 1..n - 1 + 8] == "/domain-";
    }
    ContainsAt(p, "/domain-", n - 1);
    assert Contains(p, Cluster.SeoPatterns[0]);
  }

  /** The rules match case-sensitively, unlike `assign_cluster`: an upper-case
      `/BLOG/` path is not filed as a blog. */
  lemma CaseSensitive()
    ensures CategorizePath("/BLOG/x") != BlogMap
  {
    var s := "/BLOG/x";
    ContainsIffOccurs(s, "/blog/");
    forall i | 0 <= i <= 1
      ensures !OccursAt(s, "/blog/", i)
    {
      assert s[1] == 'B';
    }
  }
}
