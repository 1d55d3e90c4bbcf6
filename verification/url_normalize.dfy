/** `normalize_url` (api/generate.py, test_system_simple.py and
    test/pyscripts/sitemap_priority_system.py carry identical copies), over
    an abstract model of `urllib.parse.urlparse`: the scheme, the network
    location, and the cut of the URL at its first `?` or `#`. */
module UrlNormalize {
  import opened Wrappers
  import opened Strings

  /** Characters `urlsplit` accepts in a scheme name. */
  predicate IsSchemeChar(c: char) {
    IsAsciiAlpha(c) || IsDigit(c) || c == '+' || c == '-' || c == '.'
  }

  predicate IsSchemeName(s: string) {
    |s| > 0 && IsAsciiAlpha(s[0]) && forall j :: 0 <= j < |s| ==> IsSchemeChar(s[j])
  }

  /** The two parts of a parsed URL that `normalize_url` consults. */
  datatype SplitUrl = SplitUrl(scheme: string, netloc: string)

  /** Splits off the scheme the way `urlsplit` does: the text before the
      first `:` is a scheme when it is a non-empty run of scheme characters
      starting with a letter; otherwise there is no scheme. */
  function SplitScheme(url: string): (r: (string, string))
    ensures r.0 == "" ==> r.1 == url
    ensures r.0 != "" ==> IsSchemeName(r.0) && url == r.0 + ":" + r.1
    ensures r.0 != "" ==> ':' !in r.0
  {
    match FindChar(url, ':')
    case None => ("", url)
    case Some(i) =>
      if IsSchemeName(url[..i]) then
        assert url == url[..i] + ":" + url[i + 1..];
        (url[..i], url[i + 1..])
      else ("", url)
  }

  /** After the scheme, a network location follows `//` and runs up to the
      first `/`, `?` or `#`. */
  function SplitNetloc(rest: string): (r: (string, string))
    ensures r.0 != "" ==> rest == "//" + r.0 + r.1
    ensures r.0 == "" ==> r.1 == rest || rest == "//" + r.1
    ensures forall j :: 0 <= j < |r.0| ==> r.0[j] !in {'/', '?', '#'}
  {
    if |rest| >= 2 && rest[..2] == "//" then
      var n := FirstOf(rest[2..], {'/', '?', '#'});
      assert rest == "//" + rest[2..2 + n] + rest[2 + n..];
      (rest[2..2 + n], rest[2 + n..])
    else ("", rest)
  }

  /** `urlsplit` raises ValueError("Invalid IPv6 URL") when the network
      location holds one square bracket without the other. */
  predicate BracketsMismatched(netloc: string) {
    ('[' in netloc) != (']' in netloc)
  }

  /** `urlparse(url)`: None where the library raises. */
  function Urlsplit(url: string): Option<SplitUrl> {
    var (scheme, rest) := SplitScheme(url);
    var (netloc, _) := SplitNetloc(rest);
    if BracketsMismatched(netloc) then None else Some(SplitUrl(scheme, netloc))
  }

  /** `parsed._replace(query='', fragment='').geturl()`: the URL up to its
      first `?` or `#`. */
  function WithoutQuery(url: string): (r: string)
    ensures r <= url
    ensures '?' !in r && '#' !in r
    ensures |r| < |url| ==> url[|r|] in {'?', '#'}
  {
    url[..FirstOf(url, {'?', '#'})]
  }

  /** The bare root `scheme://netloc/`, the one form whose trailing slash
      `normalize_url` keeps. */
  function RootForm(p: SplitUrl): string {
    p.scheme + "://" + p.netloc + "/"
  }

  /** Whether the query-free URL loses its last character: it ends with `/`
      and is not the bare root. */
  predicate DropsSlash(clean: string, p: SplitUrl) {
    EndsWith(clean, "/") && clean != RootForm(p)
  }

  /** `normalize_url(url)`. On a successful parse: drop query and fragment,
      drop one trailing `/` unless the URL is the bare root, lower-case. If
      parsing raises: lower-case and strip every trailing `/`. */
  function Normalize(url: string): (r: string)
    ensures NoUpper(r)
    ensures Urlsplit(url).Some? ==> '?' !in r && '#' !in r
    ensures Urlsplit(url).Some? ==>
      var clean := WithoutQuery(url);
      |r| == (if DropsSlash(clean, Urlsplit(url).value) then |clean| - 1 else |clean|)
      && r == Lower(clean[..|r|])
    ensures Urlsplit(url).None? ==> r == RStrip(Lower(url), '/')
  {
    match Urlsplit(url)
    case None => RStrip(Lower(url), '/')
    case Some(p) =>
      var clean := WithoutQuery(url);
      var kept := if DropsSlash(clean, p) then clean[..|clean| - 1] else clean;
      assert kept == clean[..|kept|];
      Lower(kept)
  }

  /** A host that ends where `urlsplit` ends the network location and
      passes its bracket check. */
  predicate IsPlainHost(host: string) {
    forall j :: 0 <= j < |host| ==> host[j] !in {'/', '?', '#', '[', ']'}
  }

  lemma SplitSchemeOf(scheme: string, rest: string)
    requires IsSchemeName(scheme)
    ensures SplitScheme(scheme + ":" + rest) == (scheme, rest)
  {
    var url := scheme + ":" + rest;
    assert ':' !in scheme;
    assert url == scheme + (":" + rest);
    assert (":" + rest)[0] == ':';
    assert FindChar(":" + rest, ':') == Some(0);
    FindCharConcat(scheme, ":" + rest, ':');
    assert FindChar(url, ':') == Some(|scheme|);
    assert url[..|scheme|] == scheme;
    assert url[|scheme| + 1..] == rest;
  }

  lemma SplitNetlocOf(host: string, path: string)
    requires IsPlainHost(host)
    requires path == [] || path[0] in {'/', '?', '#'}
    ensures SplitNetloc("//" + host + path).0 == host
  {
    var rest := "//" + host + path;
    assert rest[..2] == "//";
    assert rest[2..] == host + path;
    FirstOfConcat(host, path, {'/', '?', '#'});
    assert FirstOf(host, {'/', '?', '#'}) == |host|;
    assert FirstOf(rest[2..], {'/', '?', '#'}) == |host|;
    assert rest[2..2 + |host|] == host;
  }

  /** Where the query-free URL is `scheme://host` followed by a path, the
      parse recovers exactly that scheme and host. */
  lemma ParseHierarchical(scheme: string, host: string, path: string)
    requires IsSchemeName(scheme) && IsPlainHost(host)
    requires path == [] || path[0] in {'/', '?', '#'}
    ensures Urlsplit(scheme + "://" + host + path) == Some(SplitUrl(scheme, host))
  {
    var rest := "//" + host + path;
    assert scheme + "://" + host + path == scheme + ":" + rest;
    SplitSchemeOf(scheme, rest);
    SplitNetlocOf(host, path);
  }

  lemma HierarchicalHasNoQuery(scheme: string, host: string, path: string)
    requires IsSchemeName(scheme) && IsPlainHost(host)
    requires '?' !in path && '#' !in path
    ensures WithoutQuery(scheme + "://" + host + path) == scheme + "://" + host + path
  {
    var url := scheme + "://" + host + path;
    forall j | 0 <= j < |url|
      ensures url[j] !in {'?', '#'}
    {
      if j < |scheme| {
        assert url[j] == scheme[j] && IsSchemeChar(scheme[j]);
      } else if j < |scheme| + 3 {
      } else if j < |scheme| + 3 + |host| {
        assert url[j] == host[j - |scheme| - 3];
      } else {
        assert url[j] == path[j - |scheme| - 3 - |host|];
      }
    }
    assert FirstOf(url, {'?', '#'}) == |url|;
  }

  /** On a URL of the form `scheme://host` + path with no query or
      fragment, `normalize_url` lower-cases it and drops one trailing slash
      exactly when the path is something other than the bare `/`. */
  lemma NormalizeHierarchical(scheme: string, host: string, path: string)
    requires IsSchemeName(scheme) && IsPlainHost(host)
    requires path == [] || path[0] == '/'
    requires '?' !in path && '#' !in path
    ensures var url := scheme + "://" + host + path;
      Normalize(url) ==
        if EndsWith(url, "/") && path != "/" then Lower(url[..|url| - 1]) else Lower(url)
  {
    var url := scheme + "://" + host + path;
    ParseHierarchical(scheme, host, path);
    HierarchicalHasNoQuery(scheme, host, path);
    var p := SplitUrl(scheme, host);
    assert DropsSlash(url, p) <==> EndsWith(url, "/") && path != "/" by {
      if path == "/" {
        assert url == RootForm(p);
      }
    }
  }

  /** The last character of `a + b` is the last of `b`, and dropping it
      drops it from `b`. */
  lemma LastOfConcat(a: string, b: string)
    requires |b| > 0
    ensures (a + b)[|a + b| - 1] == b[|b| - 1]
    ensures (a + b)[..|a + b| - 1] == a + b[..|b| - 1]
  {
  }

  /** A path ending in `/` that is not the bare `/` loses that slash. */
  lemma NormalizeDropsSlash(scheme: string, host: string, path: string)
    requires IsSchemeName(scheme) && IsPlainHost(host)
    requires |path| > 1 && path[0] == '/' && path[|path| - 1] == '/'
    requires '?' !in path && '#' !in path
    ensures Normalize(scheme + "://" + host + path) == Lower(scheme + "://" + host + path[..|path| - 1])
  {
    var url := scheme + "://" + host + path;
    LastOfConcat(scheme + "://" + host, path);
    EndsWithSlash(url);
    NormalizeHierarchical(scheme, host, path);
  }

  lemma EndsWithSlash(s: string)
    requires |s| > 0 && s[|s| - 1] == '/'
    ensures EndsWith(s, "/")
  {
    assert s[|s| - 1..] == [s[|s| - 1]];
  }

  /** Text appended after a `?` or `#` changes neither the scheme nor the
      part of the URL that precedes it. */
  lemma SplitSchemeExtend(base: string, tail: string)
    requires tail != [] && tail[0] in {'?', '#'}
    ensures SplitScheme(base + tail).0 == SplitScheme(base).0
    ensures SplitScheme(base + tail).1 == SplitScheme(base).1 + tail
  {
    var url := base + tail;
    FindCharConcat(base, tail, ':');
    match FindChar(base, ':')
    case Some(i) =>
      assert url[..i] == base[..i];
      assert url[i + 1..] == base[i + 1..] + tail;
    case None =>
      match FindChar(url, ':')
      case None =>
      case Some(k) =>
        assert k > |base|;
        assert url[..k][|base|] == tail[0];
        assert !IsSchemeChar(tail[0]);
  }

  lemma SplitNetlocExtend(rest: string, tail: string)
    requires tail != [] && tail[0] in {'?', '#'}
    ensures SplitNetloc(rest + tail).0 == SplitNetloc(rest).0
  {
    var r := rest + tail;
    if |rest| >= 2 {
      assert r[..2] == rest[..2];
      if rest[..2] == "//" {
        assert r[2..] == rest[2..] + tail;
        FirstOfConcat(rest[2..], tail, {'/', '?', '#'});
        var n := FirstOf(rest[2..], {'/', '?', '#'});
        assert r[2..2 + n] == rest[2..2 + n];
      }
    } else {
      assert |r| >= 2 ==> r[..2] != "//" by {
        if |r| >= 2 {
          assert r[|rest|] == tail[0];
        }
      }
    }
  }

  /** `normalize_url` ignores everything from the first `?` or `#` on:
      whatever query or fragment is appended to a URL that parses, the key
      is the same. */
  lemma NormalizeIgnoresQuery(base: string, tail: string)
    requires Urlsplit(base).Some?
    requires '?' !in base && '#' !in base
    requires tail != [] && tail[0] in {'?', '#'}
    ensures Normalize(base + tail) == Normalize(base)
  {
    SplitSchemeExtend(base, tail);
    SplitNetlocExtend(SplitScheme(base).1, tail);
    assert Urlsplit(base + tail) == Urlsplit(base);
    FirstOfConcat(base, tail, {'?', '#'});
    assert FirstOf(base, {'?', '#'}) == |base|;
    assert WithoutQuery(base + tail) == base;
    assert WithoutQuery(base) == base;
  }

  lemma NoUpperConcat(a: string, b: string)
    requires NoUpper(a) && NoUpper(b)
    ensures NoUpper(a + b)
  {
  }

  lemma NoUpperUrl(scheme: string, host: string, path: string)
    requires NoUpper(scheme) && NoUpper(host) && NoUpper(path)
    ensures NoUpper(scheme + "://" + host + path)
  {
    var u := scheme + "://" + host + path;
    forall j | 0 <= j < |u|
      ensures !IsUpper(u[j])
    {
      if j < |scheme| {
        assert u[j] == scheme[j];
      } else if j < |scheme| + 3 {
      } else if j < |scheme| + 3 + |host| {
        assert u[j] == host[j - |scheme| - 3];
      } else {
        assert u[j] == path[j - |scheme| - 3 - |host|];
      }
    }
  }

  /** A lower-case `scheme://host/path/` loses exactly its final slash. */
  lemma DropOneSlash(scheme: string, host: string, path: string)
    requires IsSchemeName(scheme) && IsPlainHost(host)
    requires NoUpper(scheme) && NoUpper(host) && NoUpper(path)
    requires |path| > 1 && path[0] == '/' && path[|path| - 1] == '/'
    requires '?' !in path && '#' !in path
    ensures Normalize(scheme + "://" + host + path) == scheme + "://" + host + path[..|path| - 1]
  {
    NormalizeDropsSlash(scheme, host, path);
    NoUpperUrl(scheme, host, path[..|path| - 1]);
    LowerOfLowerCase(scheme + "://" + host + path[..|path| - 1]);
  }

  /** The bare root `scheme://host/` keeps its trailing slash. */
  lemma NormalizeKeepsRoot(scheme: string, host: string)
    requires IsSchemeName(scheme) && IsPlainHost(host)
    requires NoUpper(scheme) && NoUpper(host)
    ensures Normalize(scheme + "://" + host + "/") == scheme + "://" + host + "/"
  {
    NormalizeHierarchical(scheme, host, "/");
    NoUpperUrl(scheme, host, "/");
    LowerOfLowerCase(scheme + "://" + host + "/");
  }

  /** A lower-case `scheme://host` with a non-empty host is its own key. */
  lemma NormalizeKeepsBareHost(scheme: string, host: string)
    requires IsSchemeName(scheme) && IsPlainHost(host) && host != ""
    requires NoUpper(scheme) && NoUpper(host)
    ensures Normalize(scheme + "://" + host) == scheme + "://" + host
  {
    var url := scheme + "://" + host;
    NormalizeHierarchical(scheme, host, "");
    assert scheme + "://" + host + "" == url;
    assert !EndsWith(url, "/") by {
      assert url[|url| - 1] == host[|host| - 1];
    }
    assert Lower(url) == url by {
      NoUpperUrl(scheme, host, "");
      LowerOfLowerCase(scheme + "://" + host + "");
    }
  }

  /** A path ending in one slash normalises to the path without it. */
  lemma NormalizeSlashedPath(scheme: string, host: string, path: string)
    requires IsSchemeName(scheme) && IsPlainHost(host)
    requires |path| > 0 && path[0] == '/'
    requires '?' !in path && '#' !in path
    ensures Normalize(scheme + "://" + host + (path + "/")) == Lower(scheme + "://" + host + path)
  {
    NormalizeDropsSlash(scheme, host, path + "/");
    assert (path + "/")[..|path|] == path;
  }

  /** A path not ending in a slash is only lower-cased. */
  lemma NormalizePlainPath(scheme: string, host: string, path: string)
    requires IsSchemeName(scheme) && IsPlainHost(host)
    requires |path| > 0 && path[0] == '/' && path[|path| - 1] != '/'
    requires '?' !in path && '#' !in path
    ensures Normalize(scheme + "://" + host + path) == Lower(scheme + "://" + host + path)
  {
    NormalizeHierarchical(scheme, host, path);
    LastOfConcat(scheme + "://" + host, path);
  }

  /** A query or fragment after a slashed path is discarded. */
  lemma NormalizeSlashedQuery(scheme: string, host: string, path: string, tail: string)
    requires IsSchemeName(scheme) && IsPlainHost(host)
    requires |path| > 0 && path[0] == '/'
    requires '?' !in path && '#' !in path
    requires tail != [] && tail[0] in {'?', '#'}
    ensures Normalize(scheme + "://" + host + (path + "/") + tail) == Normalize(scheme + "://" + host + (path + "/"))
  {
    var base := scheme + "://" + host + (path + "/");
    ParseHierarchical(scheme, host, path + "/");
    HierarchicalHasNoQuery(scheme, host, path + "/");
    NormalizeIgnoresQuery(base, tail);
  }

  /** A trailing slash followed by a query or fragment normalises like the
      plain path: `https://x.com/a/?q=1#f` and `https://x.com/a` share a key. */
  lemma NormalizeSlashQuery(scheme: string, host: string, path: string, tail: string)
    requires IsSchemeName(scheme) && IsPlainHost(host)
    requires |path| > 0 && path[0] == '/' && path[|path| - 1] != '/'
    requires '?' !in path && '#' !in path
    requires tail != [] && tail[0] in {'?', '#'}
    ensures Normalize(scheme + "://" + host + path + "/" + tail) == Normalize(scheme + "://" + host + path)
  {
    assert scheme + "://" + host + path + "/" + tail == scheme + "://" + host + (path + "/") + tail;
    NormalizeSlashedQuery(scheme, host, path, tail);
    NormalizeSlashedPath(scheme, host, path);
    NormalizePlainPath(scheme, host, path);
  }

  /** `normalize_url` is not idempotent: on `scheme://host/path//` each
      call removes one more slash, e.g. `https://x.com/a//` becomes
      `https://x.com/a/` and then `https://x.com/a`. */
  lemma {:induction false} NotIdempotent(scheme: string, host: string, path: string)
    requires IsSchemeName(scheme) && IsPlainHost(host)
    requires NoUpper(scheme) && NoUpper(host) && NoUpper(path)
    requires |path| > 0 && path[0] == '/' && '?' !in path && '#' !in path
    ensures var once := Normalize(scheme + "://" + host + path + "//");
      once == scheme + "://" + host + path + "/"
      && Normalize(once) == scheme + "://" + host + path
      && Normalize(once) != once
  {
    NormalizeDoubleSlash(scheme, host, path);
    NormalizeOneSlash(scheme, host, path);
    assert |scheme + "://" + host + path| < |scheme + "://" + host + path + "/"|;
  }

  /** `scheme://host/path//` loses one of its two final slashes. */
  lemma NormalizeDoubleSlash(scheme: string, host: string, path: string)
    requires IsSchemeName(scheme) && IsPlainHost(host)
    requires NoUpper(scheme) && NoUpper(host) && NoUpper(path)
    requires |path| > 0 && path[0] == '/' && '?' !in path && '#' !in path
    ensures Normalize(scheme + "://" + host + path + "//") == scheme + "://" + host + path + "/"
  {
    var prefix := scheme + "://" + host;
    var p2 := path + "//";
    assert prefix + path + "//" == prefix + p2;
    assert p2[..|p2| - 1] == path + "/";
    assert prefix + (path + "/") == prefix + path + "/";
    NoUpperConcat(path, "//");
    DropOneSlash(scheme, host, p2);
  }

  /** `scheme://host/path/` loses its final slash. */
  lemma NormalizeOneSlash(scheme: string, host: string, path: string)
    requires IsSchemeName(scheme) && IsPlainHost(host)
    requires NoUpper(scheme) && NoUpper(host) && NoUpper(path)
    requires |path| > 0 && path[0] == '/' && '?' !in path && '#' !in path
    ensures Normalize(scheme + "://" + host + path + "/") == scheme + "://" + host + path
  {
    var prefix := scheme + "://" + host;
    var p1 := path + "/";
    assert prefix + path + "/" == prefix + p1;
    assert p1[..|p1| - 1] == path;
    NoUpperConcat(path, "/");
    DropOneSlash(scheme, host, p1);
  }
}
