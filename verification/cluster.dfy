/** `assign_cluster` (api/generate.py, test_system_simple.py): the first
    matching substring rule over the lower-cased URL picks one of six
    clusters. */
module Cluster {
  import opened Wrappers
  import opened Strings

  datatype Cluster = Blog | Support | Tlds | Tools | Seo | Misc {
    /** The label the scripts store in `data['cluster']`. */
    function Name(): string {
      match this
      case Blog => "blog"
      case Support => "support"
      case Tlds => "tlds"
      case Tools => "tools"
      case Seo => "seo"
      case Misc => "misc"
    }
  }

  /** The six labels, in rule order. */
  const Labels: seq<string> := ["blog", "support", "tlds", "tools", "seo", "misc"]

  /** Python's `any(p in u for p in pats)`. */
  predicate AnyIn(u: string, pats: seq<string>) {
    exists i :: 0 <= i < |pats| && Contains(u, pats[i])
  }

  const ToolPatterns: seq<string> := ["/whois", "/ssl-check", "/dns-check"]
  const SeoPatterns: seq<string> := ["/domain-", "/broker", "/marketplace"]

  predicate IsBlog(u: string) { Contains(u, "/blog/") }
  predicate IsSupport(u: string) { Contains(u, "/support/") || Contains(u, "/help/") }
  predicate IsTld(u: string) { Contains(u, "/tld/") || Contains(u, "/domains/") }
  predicate IsTool(u: string) { AnyIn(u, ToolPatterns) }
  predicate IsSeo(u: string) { AnyIn(u, SeoPatterns) }

  /** The rules in the order the `if`/`elif` chain tries them. */
  function Classify(u: string): Cluster {
    if IsBlog(u) then Blog
    else if IsSupport(u) then Support
    else if IsTld(u) then Tlds
    else if IsTool(u) then Tools
    else if IsSeo(u) then Seo
    else Misc
  }

  /** `assign_cluster(url)`. First match wins: each cluster is chosen
      exactly when its own rule matches the lower-cased URL and no earlier
      rule does; `misc` exactly when no rule matches. */
  function AssignCluster(url: string): (c: Cluster)
    ensures c.Name() in Labels
    ensures var u := Lower(url);
      && (c == Blog <==> IsBlog(u))
      && (c == Support <==> !IsBlog(u) && IsSupport(u))
      && (c == Tlds <==> !IsBlog(u) && !IsSupport(u) && IsTld(u))
      && (c == Tools <==> !IsBlog(u) && !IsSupport(u) && !IsTld(u) && IsTool(u))
      && (c == Seo <==> !IsBlog(u) && !IsSupport(u) && !IsTld(u) && !IsTool(u) && IsSeo(u))
      && (c == Misc <==> !IsBlog(u) && !IsSupport(u) && !IsTld(u) && !IsTool(u) && !IsSeo(u))
  {
    Classify(Lower(url))
  }

  /** Reads a label back; the inverse of `Name`. */
  function ParseLabel(s: string): (r: Option<Cluster>)
    ensures r.Some? <==> s in Labels
  {
    if s == "blog" then Some(Blog)
    else if s == "support" then Some(Support)
    else if s == "tlds" then Some(Tlds)
    else if s == "tools" then Some(Tools)
    else if s == "seo" then Some(Seo)
    else if s == "misc" then Some(Misc)
    else None
  }

  /** Every label names one cluster and reads back to it, so distinct
      clusters have distinct labels. */
  lemma LabelRoundTrip(c: Cluster, s: string)
    ensures ParseLabel(c.Name()) == Some(c)
    ensures s in Labels ==> ParseLabel(s).value.Name() == s
  {
  }

  lemma NameInjective(c1: Cluster, c2: Cluster)
    ensures c1.Name() == c2.Name() <==> c1 == c2
  {
    LabelRoundTrip(c1, c1.Name());
    LabelRoundTrip(c2, c2.Name());
  }

  /** A URL containing `/blog/` in any letter case is `blog`, whatever
      other patterns it also contains. */
  lemma BlogWins(url: string, other: string)
    requires IsBlog(Lower(url))
    ensures AssignCluster(url + other) == Blog
    ensures AssignCluster(other + url) == Blog
  {
    LowerConcat(url, other);
    LowerConcat(other, url);
    ContainsInConcat(Lower(url), Lower(other), "/blog/");
    ContainsInConcat(Lower(other), Lower(url), "/blog/");
  }

  /** The rules see only the lower-cased URL, so the letter case of the
      input does not matter. */
  lemma CaseInsensitive(url: string)
    ensures AssignCluster(Lower(url)) == AssignCluster(url)
  {
    LowerOfLower(url);
  }
}
