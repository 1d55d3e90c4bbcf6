/** test/pyscripts/restructure_sitemap_fixed.py without its file I/O:
    read the `url` entries of a sitemap tree, file each under its
    category, write one `urlset` tree per category and a `sitemapindex`
    tree naming the files. */
module Restructure {
  import opened Wrappers
  import opened Strings
  import opened Seqs
  import opened Sorting
  import opened Grouping
  import opened XmlTree
  import opened NumberText
  import opened Categories
  import opened Collecting
  import CsvRows

  /** The sitemap namespace set as `xmlns` on both kinds of root. */
  const SitemapNs: string := "http://www.sitemaps.org/schemas/sitemap/0.9"

  /** The fixed `lastmod` of every index entry. */
  const IndexLastmod: string := "2025-07-28T00:00:00Z"

  /** One `url_data` dictionary: `loc`, and `lastmod` and
      `original_priority` when the source entry had them. */
  datatype Entry = Entry(loc: string, lastmod: Option<string>, original: Option<real>)

  /** `elem = parent.find(tag); if elem is not None and elem.text`: the text
      of the first child with the tag, when there is one and it is not
      empty. */
  function ChildText(e: Element, tag: string): (r: Option<string>)
    ensures r.Some? ==> r.value != ""
  {
    match FindChild(e.children, tag)
    case None => None
    case Some(c) => if c.text.Some? && c.text.value != "" then c.text else None
  }

  /** `ChildText` reads the first child with the tag: nothing when no child
      has it, and otherwise that child's text when it is not empty. */
  lemma ChildTextSpec(e: Element, tag: string)
    ensures (forall i :: 0 <= i < |e.children| ==> e.children[i].tag != tag) ==> ChildText(e, tag).None?
    ensures forall i :: FirstWithTag(e.children, tag, i) ==>
      && (ChildText(e, tag).Some? <==> e.children[i].text.Some? && e.children[i].text.value != "")
      && (ChildText(e, tag).Some? ==> ChildText(e, tag) == e.children[i].text)
  {
    FindChildSpec(e.children, tag);
  }

  /** The entry has a usable `<loc>`; entries without one are skipped. */
  predicate HasLoc(e: Element) {
    ChildText(e, "loc").Some?
  }

  /** The entry is kept, but `float()` rejects the text of its
      `<priority>`, which aborts the whole extraction. */
  predicate Unreadable(e: Element, parse: CsvRows.FloatParser) {
    HasLoc(e) && ChildText(e, "priority").Some? && parse(Strip(ChildText(e, "priority").value)).None?
  }

  /** The dictionary built for a kept entry: stripped texts, the parsed
      original priority. */
  function EntryOf(e: Element, parse: CsvRows.FloatParser): (r: Entry)
    requires HasLoc(e)
    ensures r.loc == Strip(ChildText(e, "loc").value)
    ensures r.lastmod.Some? <==> ChildText(e, "lastmod").Some?
    ensures r.lastmod.Some? ==> r.lastmod.value == Strip(ChildText(e, "lastmod").value)
    ensures ChildText(e, "priority").None? ==> r.original.None?
    ensures ChildText(e, "priority").Some? ==> r.original == parse(Strip(ChildText(e, "priority").value))
    ensures !Unreadable(e, parse) ==> (r.original.Some? <==> ChildText(e, "priority").Some?)
  {
    var lastmod := match ChildText(e, "lastmod") case None => None case Some(t) => Some(Strip(t));
    var original := match ChildText(e, "priority") case None => None case Some(t) => parse(Strip(t));
    Entry(Strip(ChildText(e, "loc").value), lastmod, original)
  }

  /** The error `float()` raises on a text it cannot read. */
  const FloatError: string := "could not convert string to float"

  /** The body of the loop of `extract_urls_from_sitemap` for one `url`
      element: skip it without a usable `<loc>`, abort on a priority text
      `float()` rejects, otherwise build its dictionary. */
  function Judge(e: Element, parse: CsvRows.FloatParser): (v: Verdict<Entry>)
    ensures v.Skip? <==> !HasLoc(e)
    ensures v.Abort? <==> Unreadable(e, parse)
    ensures v.Take? ==> v.value == EntryOf(e, parse)
  {
    if !HasLoc(e) then Skip
    else if Unreadable(e, parse) then Abort(FloatError)
    else Take(EntryOf(e, parse))
  }

  function Judges(parse: CsvRows.FloatParser): Element -> Verdict<Entry> {
    e => Judge(e, parse)
  }

  /** The loop of `extract_urls_from_sitemap` over the `url` elements. */
  function ExtractFrom(es: seq<Element>, parse: CsvRows.FloatParser): (r: Result<seq<Entry>, string>)
    ensures r.Success? ==> |r.value| <= |es|
    ensures r.Failure? ==> r.error == FloatError
  {
    FailureIsFloatError(es, parse);
    Collect(es, Judges(parse))
  }

  /** The only abort is `float()`'s. */
  lemma {:induction false} FailureIsFloatError(es: seq<Element>, parse: CsvRows.FloatParser)
    ensures Collect(es, Judges(parse)).Failure? ==> Collect(es, Judges(parse)).error == FloatError
    decreases |es|
  {
    if es != [] {
      FailureIsFloatError(es[1..], parse);
    }
  }

  /** The extraction fails exactly when some kept entry has a priority
      text `float()` rejects. */
  lemma ExtractFails(es: seq<Element>, parse: CsvRows.FloatParser)
    ensures ExtractFrom(es, parse).Failure? <==> exists x :: x in es && Unreadable(x, parse)
  {
    CollectFails(es, Judges(parse));
    assert forall x :: Judges(parse)(x).Abort? <==> Unreadable(x, parse);
  }

  /** Otherwise every entry with a usable `<loc>` is kept, in order, and
      every other entry is skipped. */
  lemma ExtractKeeps(es: seq<Element>, parse: CsvRows.FloatParser)
    requires forall x :: x in es ==> !Unreadable(x, parse)
    ensures ExtractFrom(es, parse).Success?
    ensures var r, kept := ExtractFrom(es, parse).value, Select(es, HasLoc, true);
      |r| == |kept| && forall i :: 0 <= i < |r| ==> r[i] == EntryOf(kept[i], parse)
  {
    var judge := Judges(parse);
    assert forall x :: x in es ==> !judge(x).Abort? && Taking(judge)(x) == HasLoc(x);
    CollectKeeps(es, judge);
    SelectSameKey(es, Taking(judge), HasLoc, true);
    var r, kept := ExtractFrom(es, parse).value, Select(es, HasLoc, true);
    forall i | 0 <= i < |r|
      ensures r[i] == EntryOf(kept[i], parse)
    {
      assert Taking(judge)(kept[i]);
    }
  }

  /** `extract_urls_from_sitemap` as written, on the tree `fromstring`
      gives: the loop runs over every element below the root whose tag is
      exactly `url`, in document order. */
  function ExtractUrlsAsWritten(root: Element, parse: CsvRows.FloatParser): (r: Result<seq<Entry>, string>)
    ensures r.Success? ==> |r.value| <= |FindAll(root, "url")|
  {
    ExtractFrom(FindAll(root, "url"), parse)
  }

  /** `extract_urls_from_sitemap` with tags compared by local name, so that
      `url`, `loc`, `lastmod` and `priority` are found whether or not the
      document declares a default namespace. */
  function ExtractUrls(root: Element, parse: CsvRows.FloatParser): (r: Result<seq<Entry>, string>)
    ensures r.Success? ==> |r.value| <= |FindAll(LocalNames(root), "url")|
    ensures r.Failure? ==> r.error == FloatError
  {
    ExtractFrom(FindAll(LocalNames(root), "url"), parse)
  }

  /** The extraction fails exactly when some `url` element with a `loc`
      has a priority `float()` rejects; otherwise it gives, in document
      order, the entries of exactly the `url` elements that have a `loc`. */
  lemma ExtractUrlsSpec(root: Element, parse: CsvRows.FloatParser)
    ensures var urls := FindAll(LocalNames(root), "url");
      ExtractUrls(root, parse).Failure? <==> exists x :: x in urls && Unreadable(x, parse)
    ensures var urls := FindAll(LocalNames(root), "url");
      var r, kept := ExtractUrls(root, parse), Select(urls, HasLoc, true);
      (forall x :: x in urls ==> !Unreadable(x, parse)) ==>
        r.Success? && |r.value| == |kept| && forall i :: 0 <= i < |kept| ==> r.value[i] == EntryOf(kept[i], parse)
  {
    var urls := FindAll(LocalNames(root), "url");
    ExtractFails(urls, parse);
    if forall x :: x in urls ==> !Unreadable(x, parse) {
      ExtractKeeps(urls, parse);
    }
  }

  /** An un-namespaced tree has nothing to strip: there the extraction is
      the one as written. */
  lemma ExtractUrlsOfPlain(root: Element, parse: CsvRows.FloatParser)
    requires Plain(root)
    ensures ExtractUrls(root, parse) == ExtractUrlsAsWritten(root, parse)
  {
    LocalNamesOfPlain(root);
  }

  /** A `url_data` after the loop of `main` has stored its category (and
      with it `assigned_priority` and `assigned_sitemap`). */
  datatype Placed = Placed(entry: Entry, category: Category)

  function PlacedPriority(p: Placed): real { p.category.Priority() }

  function PlacedFile(p: Placed): string { p.category.File() }

  function Place(e: Entry): Placed {
    Placed(e, CategorizeUrl(e.loc))
  }

  function PlaceAll(es: seq<Entry>): (r: seq<Placed>)
    ensures |r| == |es|
    ensures forall i :: 0 <= i < |es| ==> r[i] == Place(es[i])
  {
    seq(|es|, i requires 0 <= i < |es| => Place(es[i]))
  }

  /** `f"{url_data['assigned_priority']:.2f}"`. */
  function PriorityText(c: Category): string {
    Hundredths(c.Hundredths())
  }

  /** A `url` element with the given `loc`, optional `lastmod` and
      `priority` texts, in that order. */
  function UrlElementOf(entry: Entry, priority: string): (e: Element)
    ensures e.tag == "url" && e.attrs == [] && Shallow(e)
    ensures |e.children| == if entry.lastmod.Some? then 3 else 2
    ensures forall j :: 0 <= j < |e.children| ==> e.children[j].tag != "url"
  {
    var loc := Leaf("loc", entry.loc);
    var pri := Leaf("priority", priority);
    if entry.lastmod.Some? then Element("url", [], None, [loc, Leaf("lastmod", entry.lastmod.value), pri])
    else Element("url", [], None, [loc, pri])
  }

  /** The `url` element `create_sitemap_xml` appends for one entry: a
      `loc`, a `lastmod` when the entry has one, and the two-decimal
      `priority`. */
  function UrlElement(p: Placed): Element {
    UrlElementOf(p.entry, PriorityText(p.category))
  }

  /** `create_sitemap_xml` before serialisation: a `urlset` root with one
      `url` child per entry, in order. What `find` sees in each child is
      stated by `UrlElementTexts`. */
  function CreateSitemapXml(ps: seq<Placed>): (root: Element)
    ensures root.tag == "urlset" && root.attrs == [("xmlns", SitemapNs)]
    ensures TwoLevel(root, "url")
    ensures |root.children| == |ps|
    ensures forall i :: 0 <= i < |ps| ==> root.children[i] == UrlElement(ps[i])
  {
    Element("urlset", [("xmlns", SitemapNs)], None, seq(|ps|, i requires 0 <= i < |ps| => UrlElement(ps[i])))
  }

  /** An entry whose texts survive being written and read back: a
      non-empty `loc` and `lastmod` without surrounding whitespace. */
  predicate Clean(e: Entry) {
    e.loc != "" && Strip(e.loc) == e.loc
    && (e.lastmod.Some? ==> e.lastmod.value != "" && Strip(e.lastmod.value) == e.lastmod.value)
  }

  /** `float()` reads every two-decimal text as its value. */
  ghost predicate ReadsDecimals(parse: CsvRows.FloatParser) {
    forall s :: ParseHundredths(s).Some? ==> parse(s) == Some(ParseHundredths(s).value as real / 100.0)
  }

  /** What reading a written entry gives back: the entry, with the
      category's priority as its original priority. */
  function Reread(p: Placed): Entry {
    Entry(p.entry.loc, p.entry.lastmod, Some(p.category.Priority()))
  }

  /** The digits-only priority text is its own `strip()`. */
  lemma HundredthsStripped(h: nat)
    ensures Hundredths(h) != "" && Strip(Hundredths(h)) == Hundredths(h)
  {
    var w, d := NatText(h / 100), DigitChar(h % 10);
    var s := w + "." + [DigitChar(h / 10 % 10), d];
    assert Hundredths(h) == s;
    assert s[0] == w[0] && s[|s| - 1] == d;
    StripTrimmed(s);
  }

  /** `float()` reads a written priority text back as its value. */
  lemma PriorityTextReads(h: nat, parse: CsvRows.FloatParser)
    requires ReadsDecimals(parse)
    ensures parse(Hundredths(h)) == Some(h as real / 100.0)
  {
    HundredthsRoundTrip(h);
  }

  /** The texts `find` sees in a written `url` element. */
  lemma UrlElementTexts(entry: Entry, text: string)
    requires Clean(entry) && text != ""
    ensures ChildText(UrlElementOf(entry, text), "loc") == Some(entry.loc)
    ensures ChildText(UrlElementOf(entry, text), "lastmod") == entry.lastmod
    ensures ChildText(UrlElementOf(entry, text), "priority") == Some(text)
  {
    var cs := UrlElementOf(entry, text).children;
    assert FindChild(cs, "loc") == Some(cs[0]);
    if entry.lastmod.Some? {
      assert FindChild(cs[1..], "lastmod") == Some(cs[1]);
      assert FindChild(cs[2..], "priority") == Some(cs[2]);
      assert FindChild(cs[1..], "priority") == Some(cs[2]);
    } else {
      assert FindChild(cs[1..], "priority") == Some(cs[1]);
      assert FindChild(cs[1..][1..], "lastmod") == None;
      assert FindChild(cs[1..], "lastmod") == None;
    }
  }

  /** A written `url` element is kept and read back as the entry, with
      the value `float()` gives its priority text. */
  lemma UrlElementOfReads(entry: Entry, text: string, parse: CsvRows.FloatParser, v: real)
    requires Clean(entry) && text != "" && Strip(text) == text && parse(text) == Some(v)
    ensures HasLoc(UrlElementOf(entry, text)) && !Unreadable(UrlElementOf(entry, text), parse)
    ensures EntryOf(UrlElementOf(entry, text), parse) == Entry(entry.loc, entry.lastmod, Some(v))
  {
    UrlElementTexts(entry, text);
  }

  /** The written priority text of a category reads back as its priority. */
  lemma PriorityTextReadsBack(c: Category, parse: CsvRows.FloatParser)
    requires ReadsDecimals(parse)
    ensures PriorityText(c) != "" && Strip(PriorityText(c)) == PriorityText(c)
    ensures parse(PriorityText(c)) == Some(c.Priority())
  {
    var h := c.Hundredths();
    assert PriorityText(c) == Hundredths(h);
    assert c.Priority() == h as real / 100.0;
    HundredthsStripped(h);
    PriorityTextReads(h, parse);
  }

  /** Reading back one written `url` element gives the entry it was
      written from. */
  lemma UrlElementReads(p: Placed, parse: CsvRows.FloatParser)
    requires Clean(p.entry) && ReadsDecimals(parse)
    ensures HasLoc(UrlElement(p)) && !Unreadable(UrlElement(p), parse)
    ensures EntryOf(UrlElement(p), parse) == Reread(p)
  {
    PriorityTextReadsBack(p.category, parse);
    UrlElementOfReads(p.entry, PriorityText(p.category), parse, p.category.Priority());
  }

  /** When every element is kept and read as the matching entry, the
      extraction is exactly those entries. */
  lemma ExtractAllKept(es: seq<Element>, want: seq<Entry>, parse: CsvRows.FloatParser)
    requires |es| == |want|
    requires forall i :: 0 <= i < |es| ==> HasLoc(es[i]) && !Unreadable(es[i], parse)
    requires forall i :: 0 <= i < |es| ==> EntryOf(es[i], parse) == want[i]
    ensures ExtractFrom(es, parse) == Success(want)
  {
    assert forall x :: x in es ==> !Unreadable(x, parse);
    SelectAll(es, HasLoc, true);
    ExtractKeeps(es, parse);
    var r := ExtractFrom(es, parse).value;
    assert forall i :: 0 <= i < |r| ==> r[i] == want[i];
    assert r == want;
  }

  lemma WrittenElementsRead(ps: seq<Placed>, parse: CsvRows.FloatParser)
    requires forall i :: 0 <= i < |ps| ==> Clean(ps[i].entry)
    requires ReadsDecimals(parse)
    ensures forall i :: 0 <= i < |ps| ==> HasLoc(UrlElement(ps[i])) && !Unreadable(UrlElement(ps[i]), parse)
    ensures forall i :: 0 <= i < |ps| ==> EntryOf(UrlElement(ps[i]), parse) == Reread(ps[i])
  {
    forall i | 0 <= i < |ps|
      ensures HasLoc(UrlElement(ps[i])) && !Unreadable(UrlElement(ps[i]), parse)
      ensures EntryOf(UrlElement(ps[i]), parse) == Reread(ps[i])
    {
      UrlElementReads(ps[i], parse);
    }
  }

  /** An element without attributes read back under the sitemap namespace
      has a qualified tag, so not a bare `url`. */
  lemma QualifiedIsNotUrl(e: Element)
    requires e.attrs == []
    ensures Reparse(e, SitemapNs).tag != "url"
  {
    var r := Reparse(e, SitemapNs);
    assert r.tag == "{" + SitemapNs + "}" + e.tag;
    assert r.tag[0] == '{';
  }

  /** The sitemap written for `ps`, read back: the root and every element
      below it carry the sitemap namespace in their tags. */
  lemma WrittenSitemapShape(ps: seq<Placed>)
    ensures var w := CreateSitemapXml(ps);
      var r := Reparse(w, "");
      && |r.children| == |ps|
      && (forall i :: 0 <= i < |ps| ==> r.children[i] == Reparse(UrlElement(ps[i]), SitemapNs))
  {
    var w := CreateSitemapXml(ps);
    assert DeclaredNs(w.attrs, "") == SitemapNs;
  }

  /** As written, the script finds no `url` in a sitemap that declares the
      sitemap namespace, such as the ones it writes itself: reading one back
      gives no entries at all, however many it holds. */
  lemma WrittenSitemapReadsEmpty(ps: seq<Placed>, parse: CsvRows.FloatParser)
    ensures ExtractUrlsAsWritten(Reparse(CreateSitemapXml(ps), ""), parse) == Success([])
  {
    var r := Reparse(CreateSitemapXml(ps), "");
    WrittenSitemapShape(ps);
    forall i | 0 <= i < |r.children|
      ensures r.children[i].tag != "url" && Shallow(r.children[i])
      ensures forall j :: 0 <= j < |r.children[i].children| ==> r.children[i].children[j].tag != "url"
    {
      var u := UrlElement(ps[i]);
      QualifiedIsNotUrl(u);
      forall j | 0 <= j < |r.children[i].children|
        ensures r.children[i].children[j].tag != "url" && r.children[i].children[j].children == []
      {
        assert r.children[i].children[j] == Reparse(u.children[j], SitemapNs);
        QualifiedIsNotUrl(u.children[j]);
      }
    }
    assert TwoLevelWithout(r, "url");
    FindAllAbsent(r, "url");
  }

  /** A written `url` element of a clean entry survives writing and reading
      back once local names are taken. */
  lemma UrlElementPlain(p: Placed)
    requires Clean(p.entry)
    ensures Plain(UrlElement(p))
  {
    var h := p.category.Hundredths();
    assert PriorityText(p.category) == Hundredths(h);
    HundredthsStripped(h);
  }

  /** Writing the sitemap of clean entries and reading it back gives, once
      local names are taken, the `url` elements that were written. */
  lemma WrittenSitemapLocalNames(ps: seq<Placed>)
    requires forall i :: 0 <= i < |ps| ==> Clean(ps[i].entry)
    ensures LocalNames(Reparse(CreateSitemapXml(ps), "")).children == CreateSitemapXml(ps).children
  {
    var w := CreateSitemapXml(ps);
    var l := LocalNames(Reparse(w, ""));
    WrittenSitemapShape(ps);
    forall i | 0 <= i < |ps|
      ensures l.children[i] == w.children[i]
    {
      UrlElementReadsBack(ps[i]);
    }
  }

  lemma UrlElementReadsBack(p: Placed)
    requires Clean(p.entry)
    ensures LocalNames(Reparse(UrlElement(p), SitemapNs)) == UrlElement(p)
  {
    UrlElementPlain(p);
    LocalNamesOfReparse(UrlElement(p), SitemapNs);
  }

  /** Round trip: writing a sitemap, reading the text back and extracting
      its entries gives every written entry, in order, with its assigned
      priority as the original priority. */
  lemma SitemapRoundTrip(ps: seq<Placed>, parse: CsvRows.FloatParser)
    requires forall i :: 0 <= i < |ps| ==> Clean(ps[i].entry)
    requires ReadsDecimals(parse)
    ensures ExtractUrls(Reparse(CreateSitemapXml(ps), ""), parse)
      == Success(seq(|ps|, i requires 0 <= i < |ps| => Reread(ps[i])))
  {
    var w := CreateSitemapXml(ps);
    var l := LocalNames(Reparse(w, ""));
    WrittenSitemapLocalNames(ps);
    assert TwoLevel(l, "url");
    FindAllTwoLevel(l, "url");
    WrittenElementsRead(ps, parse);
    ExtractAllKept(w.children, seq(|ps|, i requires 0 <= i < |ps| => Reread(ps[i])), parse);
  }

  /** The `sitemap` element the index gets for one file. */
  function IndexEntry(file: string): Element {
    Element("sitemap", [], None, [Leaf("loc", SiteRoot + "/" + file), Leaf("lastmod", IndexLastmod)])
  }

  /** The `sitemapindex` root: one `sitemap` child per file, in order. */
  function BuildIndex(files: seq<string>): (root: Element)
    ensures root.tag == "sitemapindex" && root.attrs == [("xmlns", SitemapNs)]
    ensures |root.children| == |files|
    ensures forall i :: 0 <= i < |files| ==> (root.children[i].tag == "sitemap"
      && ChildText(root.children[i], "loc") == Some(SiteRoot + "/" + files[i])
      && ChildText(root.children[i], "lastmod") == Some(IndexLastmod))
  {
    var root := Element("sitemapindex", [("xmlns", SitemapNs)], None,
      seq(|files|, i requires 0 <= i < |files| => IndexEntry(files[i])));
    assert forall i :: 0 <= i < |files| ==>
      ChildText(root.children[i], "loc") == Some(SiteRoot + "/" + files[i])
      && ChildText(root.children[i], "lastmod") == Some(IndexLastmod) by {
      forall i | 0 <= i < |files|
        ensures ChildText(root.children[i], "loc") == Some(SiteRoot + "/" + files[i])
        ensures ChildText(root.children[i], "lastmod") == Some(IndexLastmod)
      {
        var cs := root.children[i].children;
        assert FindChild(cs, "lastmod") == Some(Leaf("lastmod", IndexLastmod)) by {
          assert FindChild(cs[1..], "lastmod") == Some(cs[1]);
        }
      }
    }
    root
  }

  /** The file named by the `loc` of an index entry, relative to the site
      root. */
  function IndexedFile(e: Element): Option<string> {
    match ChildText(e, "loc")
    case None => None
    case Some(t) => if StartsWith(t, SiteRoot + "/") then Some(t[|SiteRoot| + 1..]) else None
  }

  /** The files an index names, in order; the inverse of `BuildIndex`. */
  function ReadIndex(root: Element): seq<Option<string>> {
    var es := FindAll(root, "sitemap");
    seq(|es|, i requires 0 <= i < |es| => IndexedFile(es[i]))
  }

  /** Reading an index back gives the files it was built from. */
  lemma IndexRoundTrip(files: seq<string>)
    ensures ReadIndex(BuildIndex(files)) == seq(|files|, i requires 0 <= i < |files| => Some(files[i]))
  {
    var root := BuildIndex(files);
    forall i | 0 <= i < |root.children|
      ensures root.children[i] == IndexEntry(files[i])
      ensures Shallow(root.children[i])
      ensures forall j :: 0 <= j < |root.children[i].children| ==> root.children[i].children[j].tag != "sitemap"
    {
    }
    assert TwoLevel(root, "sitemap");
    FindAllTwoLevel(root, "sitemap");
    forall i | 0 <= i < |files|
      ensures IndexedFile(root.children[i]) == Some(files[i])
    {
      var t := SiteRoot + "/" + files[i];
      assert t[..|SiteRoot| + 1] == SiteRoot + "/";
      assert t[|SiteRoot| + 1..] == files[i];
    }
  }

  /** What `main` leaves behind: the file names in the order their first
      URL was seen, each file's `urlset` tree, and the index tree. */
  datatype Output = Output(files: seq<string>, sitemaps: map<string, Element>, index: Element)

  /** The entries filed under each file, in the order `main` saw them. */
  function Categorized(es: seq<Entry>): Groups<Placed, string> {
    GroupBy(PlaceAll(es), PlacedFile)
  }

  /** The body of `main` after extraction. */
  function RestructureEntries(es: seq<Entry>): Output {
    var g := Categorized(es);
    Output(g.order,
      map f | f in g.lists :: CreateSitemapXml(SortDesc(g.lists[f], PlacedPriority)),
      BuildIndex(g.order))
  }

  /** `main` as written, on the parsed source tree: the full-name
      extraction, then the restructuring. */
  function MainAsWritten(source: Element, parse: CsvRows.FloatParser): (r: Result<Output, string>)
    ensures r.Failure? ==> r.error == FloatError
  {
    match ExtractUrlsAsWritten(source, parse)
    case Failure(m) => Failure(m)
    case Success(es) => Success(RestructureEntries(es))
  }

  /** As written, `main` run on a sitemap the script itself writes, once
      serialised and parsed, never fails and writes nothing: no category
      file, no sitemap and an index without entries. */
  lemma MainAsWrittenOnOwnOutput(ps: seq<Placed>, parse: CsvRows.FloatParser)
    ensures var r := MainAsWritten(Reparse(CreateSitemapXml(ps), ""), parse);
      && r.Success?
      && r.value.files == []
      && r.value.sitemaps == map[]
      && r.value.index.children == []
  {
    WrittenSitemapReadsEmpty(ps, parse);
    RestructureSpec([]);
  }

  /** `main` with tags matched by local name, on the parsed source tree:
      extraction, then the restructuring; a priority `float()` rejects
      stops it before anything is written. */
  function RestructureSitemap(source: Element, parse: CsvRows.FloatParser): Result<Output, string> {
    match ExtractUrls(source, parse)
    case Failure(m) => Failure(m)
    case Success(es) => Success(RestructureEntries(es))
  }

  /** On a source without qualified tags, the corrected `main` is `main` as
      written. */
  lemma RestructureSitemapOfPlain(source: Element, parse: CsvRows.FloatParser)
    requires Plain(source)
    ensures RestructureSitemap(source, parse) == MainAsWritten(source, parse)
  {
    ExtractUrlsOfPlain(source, parse);
  }

  /** With tags matched by local name, `main` stops exactly when some `url` element with a `loc` has a
      priority `float()` rejects. Otherwise it files every `url` element
      that has a `loc`: the files are distinct, each one of the six, each
      with a sitemap and an index entry, and the file lists hold as many
      entries as there are such elements. */
  lemma RestructureSitemapSpec(source: Element, parse: CsvRows.FloatParser)
    ensures var urls := FindAll(LocalNames(source), "url");
      RestructureSitemap(source, parse).Failure? <==> exists x :: x in urls && Unreadable(x, parse)
    ensures RestructureSitemap(source, parse).Failure? ==> RestructureSitemap(source, parse).error == FloatError
    ensures var r, urls := RestructureSitemap(source, parse), FindAll(LocalNames(source), "url");
      r.Success? ==>
        var es := ExtractUrls(source, parse).value;
        && Distinct(r.value.files)
        && (forall f :: f in r.value.files ==> f in Files)
        && (forall f :: f in r.value.sitemaps <==> f in r.value.files)
        && |r.value.index.children| == |r.value.files|
        && Total(Categorized(es).order, Categorized(es).lists) == |Select(urls, HasLoc, true)|
  {
    ExtractUrlsSpec(source, parse);
    var r := RestructureSitemap(source, parse);
    if r.Success? {
      var es := ExtractUrls(source, parse).value;
      assert r.value == RestructureEntries(es);
      RestructureSpec(es);
    }
  }

  /** Every entry of a file's list was filed under that file's category,
      so they share one priority and the descending sort keeps their
      order. */
  lemma ClusterSortKeepsOrder(es: seq<Entry>, f: string)
    requires f in Categorized(es).lists
    ensures SortDesc(Categorized(es).lists[f], PlacedPriority) == Categorized(es).lists[f]
    ensures Categorized(es).lists[f] == Select(PlaceAll(es), PlacedFile, f)
  {
    var l := Categorized(es).lists[f];
    GroupBySpec(PlaceAll(es), PlacedFile);
    var c := CategoryOfFile(f).value by {
      var x := l[0] by { GroupsNonEmpty(PlaceAll(es), PlacedFile, f); }
      FileRoundTrip(x.category, f);
    }
    forall i | 0 <= i < |l|
      ensures PlacedPriority(l[i]) == c.Priority()
    {
      FileRoundTrip(l[i].category, f);
      FileInjective(l[i].category, c);
    }
    SortUniformIsIdentity(l, PlacedPriority, c.Priority());
  }

  /** The restructuring: each file appears once, is one of the six, and
      has a sitemap; the file lists hold every entry once between them; a
      file's sitemap lists exactly the entries filed there, in their
      original order; the index names every file in the same order. */
  lemma RestructureSpec(es: seq<Entry>)
    ensures var out := RestructureEntries(es);
      && Distinct(out.files)
      && (forall f :: f in out.files ==> f in Files)
      && (forall f :: f in out.sitemaps <==> f in out.files)
      && Total(Categorized(es).order, Categorized(es).lists) == |es|
      && |out.index.children| == |out.files|
      && (forall i :: 0 <= i < |out.files| ==> ChildText(out.index.children[i], "loc") == Some(SiteRoot + "/" + out.files[i]))
    ensures var out := RestructureEntries(es);
      forall f :: f in out.sitemaps ==>
        var placed := Select(PlaceAll(es), PlacedFile, f);
        && |out.sitemaps[f].children| == |placed|
        && (forall i :: 0 <= i < |placed| ==> out.sitemaps[f].children[i] == UrlElement(placed[i]))
  {
    var ps := PlaceAll(es);
    var g := Categorized(es);
    GroupBySpec(ps, PlacedFile);
    forall f | f in g.order
      ensures f in Files
    {
      var x :| x in ps && PlacedFile(x) == f;
      FileRoundTrip(x.category, f);
    }
    var out := RestructureEntries(es);
    forall f | f in out.sitemaps
      ensures var placed := Select(ps, PlacedFile, f);
        && |out.sitemaps[f].children| == |placed|
        && (forall i :: 0 <= i < |placed| ==> out.sitemaps[f].children[i] == UrlElement(placed[i]))
    {
      ClusterSortKeepsOrder(es, f);
    }
  }

  /** The files, and with them the index entries, come in the order in
      which each file's first entry was seen. */
  lemma FilesInFirstSeenOrder(es: seq<Entry>)
    ensures var files := RestructureEntries(es).files;
      forall i, j :: 0 <= i < j < |files| ==>
        FirstIndex(PlaceAll(es), PlacedFile, files[i]) < FirstIndex(PlaceAll(es), PlacedFile, files[j])
  {
    var ps, files := PlaceAll(es), RestructureEntries(es).files;
    var order := GroupBy(ps, PlacedFile).order;
    forall i, j | 0 <= i < j < |files|
      ensures FirstIndex(ps, PlacedFile, files[i]) < FirstIndex(ps, PlacedFile, files[j])
    {
      KeyOrderAt(ps, PlacedFile, i, j);
      assert files[i] == order[i] && files[j] == order[j];
    }
  }

  /** Each entry is filed in the sitemap of its own category and in no
      other (the per-cluster counts of `cluster_stats`). */
  lemma EveryEntryFiledOnce(es: seq<Entry>, e: Entry, f: string)
    requires e in es
    ensures var g := Categorized(es);
      var own := CategorizeUrl(e.loc).File();
      own in g.lists && Place(e) in g.lists[own]
      && (f in g.lists && Place(e) in g.lists[f] ==> f == own)
  {
    var i :| 0 <= i < |es| && es[i] == e;
    assert PlaceAll(es)[i] == Place(e);
    GroupsPartition(PlaceAll(es), PlacedFile, Place(e), f);
  }
}
