/** The part of `xml.etree.ElementTree` the restructure script relies on:
    elements with a tag, attributes, optional text and children, `find`
    of a direct child and `findall('.//tag')` over all descendants, and
    what writing a tree with `tostring` and reading it back with
    `fromstring` does to its tags under a default namespace. The
    characters of the serialised text are not part of this model. */
module XmlTree {
  import opened Wrappers
  import opened Seqs
  import opened Strings

  datatype Element = Element(tag: string, attrs: seq<(string, string)>, text: Option<string>, children: seq<Element>)

  /** `e = SubElement(parent, tag); e.text = text` for an element without
      children of its own. */
  function Leaf(tag: string, text: string): Element {
    Element(tag, [], Some(text), [])
  }

  function TagOf(e: Element): string { e.tag }

  /** `cs[i]` is the first element of `cs` with the tag. */
  predicate FirstWithTag(cs: seq<Element>, tag: string, i: int) {
    0 <= i < |cs| && cs[i].tag == tag && forall j :: 0 <= j < i ==> cs[j].tag != tag
  }

  /** `e.find(tag)`: the first direct child with that tag. */
  function FindChild(cs: seq<Element>, tag: string): (r: Option<Element>)
    decreases |cs|
  {
    if cs == [] then None
    else if cs[0].tag == tag then Some(cs[0])
    else FindChild(cs[1..], tag)
  }

  /** `find` returns the first child with the tag, and nothing when no
      child has it. */
  lemma {:induction false} FindChildSpec(cs: seq<Element>, tag: string)
    ensures FindChild(cs, tag).None? <==> forall i :: 0 <= i < |cs| ==> cs[i].tag != tag
    ensures FindChild(cs, tag).Some? ==> exists i :: FirstWithTag(cs, tag, i) && cs[i] == FindChild(cs, tag).value
    decreases |cs|
  {
    if cs != [] && cs[0].tag != tag {
      FindChildSpec(cs[1..], tag);
      var r := FindChild(cs[1..], tag);
      if r.Some? {
        var i :| FirstWithTag(cs[1..], tag, i) && cs[1..][i] == r.value;
        assert FirstWithTag(cs, tag, i + 1);
      }
    } else if cs != [] {
      assert FirstWithTag(cs, tag, 0);
    }
  }

  /** All descendants of `e` (not `e` itself) in document order. */
  function Descendants(e: Element): seq<Element>
    decreases e, |e.children| + 1
  {
    DescendantsFrom(e, 0)
  }

  /** The descendants contributed by the children of `e` from index `i` on. */
  function DescendantsFrom(e: Element, i: nat): seq<Element>
    requires i <= |e.children|
    decreases e, |e.children| - i
  {
    if i == |e.children| then []
    else [e.children[i]] + Descendants(e.children[i]) + DescendantsFrom(e, i + 1)
  }

  /** `e.findall('.//' + tag)`. */
  function FindAll(e: Element, tag: string): seq<Element> {
    Select(Descendants(e), TagOf, tag)
  }

  // ---- Default namespaces ----

  /** The name expat reports for a tag in the scope of default namespace
      `ns`: `{ns}tag`, or the bare tag when no namespace is in force. */
  function Qualify(ns: string, tag: string): string {
    if ns == "" then tag else "{" + ns + "}" + tag
  }

  /** The default namespace in force inside an element: the value of its
      own `xmlns` attribute, else the one inherited from its parent. An
      empty `xmlns` undeclares it. */
  function DeclaredNs(attrs: seq<(string, string)>, inherited: string): string
    decreases |attrs|
  {
    if attrs == [] then inherited
    else if attrs[0].0 == "xmlns" then attrs[0].1
    else DeclaredNs(attrs[1..], inherited)
  }

  /** The attributes the parser reports: namespace declarations are not
      attributes. */
  function WithoutXmlns(attrs: seq<(string, string)>): (r: seq<(string, string)>)
    ensures forall i :: 0 <= i < |r| ==> r[i].0 != "xmlns"
    decreases |attrs|
  {
    if attrs == [] then []
    else (if attrs[0].0 == "xmlns" then [] else [attrs[0]]) + WithoutXmlns(attrs[1..])
  }

  /** `fromstring(tostring(e))`, as far as tags, attributes and texts go,
      for an element inside default namespace `inherited`: every tag is
      qualified by the namespace in force, the `xmlns` attributes are gone,
      and an empty text reads back as no text. */
  function Reparse(e: Element, inherited: string): (r: Element)
    ensures |r.children| == |e.children|
    decreases e
  {
    var ns := DeclaredNs(e.attrs, inherited);
    Element(Qualify(ns, e.tag), WithoutXmlns(e.attrs), if e.text == Some("") then None else e.text,
      seq(|e.children|, i requires 0 <= i < |e.children| => Reparse(e.children[i], ns)))
  }

  /** A tag with its `{namespace}` part removed. */
  function LocalName(tag: string): string {
    if |tag| > 0 && tag[0] == '{' then
      match FindChar(tag, '}')
      case None => tag
      case Some(k) => tag[k + 1..]
    else tag
  }

  /** The tree with every tag replaced by its local name. */
  function LocalNames(e: Element): (r: Element)
    ensures |r.children| == |e.children|
    decreases e
  {
    Element(LocalName(e.tag), e.attrs, e.text,
      seq(|e.children|, i requires 0 <= i < |e.children| => LocalNames(e.children[i])))
  }

  /** A tree that writing and reading back leaves alone once the local
      names are taken: no namespace declarations, no tag that already looks
      qualified, no empty text. */
  predicate Plain(e: Element)
    decreases e
  {
    && (forall i :: 0 <= i < |e.attrs| ==> e.attrs[i].0 != "xmlns")
    && (e.tag == "" || e.tag[0] != '{')
    && e.text != Some("")
    && forall i :: 0 <= i < |e.children| ==> Plain(e.children[i])
  }

  /** The local name of a qualified tag is the tag. */
  lemma LocalNameOfQualify(ns: string, tag: string)
    requires '}' !in ns && (tag == "" || tag[0] != '{')
    ensures LocalName(Qualify(ns, tag)) == tag
  {
    if ns != "" {
      var a, b := "{" + ns, "}" + tag;
      assert Qualify(ns, tag) == a + b;
      assert '}' !in a && b[0] == '}';
      FindCharConcat(a, b, '}');
      assert (a + b)[|a| + 1..] == tag;
    }
  }

  lemma {:induction false} PlainAttrs(attrs: seq<(string, string)>, inherited: string)
    requires forall i :: 0 <= i < |attrs| ==> attrs[i].0 != "xmlns"
    ensures DeclaredNs(attrs, inherited) == inherited && WithoutXmlns(attrs) == attrs
    decreases |attrs|
  {
    if attrs != [] {
      PlainAttrs(attrs[1..], inherited);
    }
  }

  /** Writing a plain tree inside a default namespace and reading it back
      qualifies its tags, and nothing else: taking the local names gives
      the tree back. */
  lemma {:induction false} LocalNamesOfReparse(e: Element, ns: string)
    requires Plain(e) && '}' !in ns
    ensures LocalNames(Reparse(e, ns)) == e
    decreases e
  {
    PlainAttrs(e.attrs, ns);
    LocalNameOfQualify(ns, e.tag);
    var r := LocalNames(Reparse(e, ns));
    forall i | 0 <= i < |e.children|
      ensures r.children[i] == e.children[i]
    {
      LocalNamesOfReparse(e.children[i], ns);
    }
  }

  /** Elements none of whose children have children of their own. */
  predicate Shallow(e: Element) {
    forall i :: 0 <= i < |e.children| ==> e.children[i].children == []
  }

  lemma {:induction false} DescendantsOfShallowFrom(e: Element, i: nat)
    requires i <= |e.children| && Shallow(e)
    ensures DescendantsFrom(e, i) == e.children[i..]
    decreases |e.children| - i
  {
    if i < |e.children| {
      DescendantsOfShallowFrom(e, i + 1);
      assert Descendants(e.children[i]) == [] by {
        assert DescendantsFrom(e.children[i], 0) == [];
      }
      assert e.children[i..] == [e.children[i]] + e.children[i + 1..];
    }
  }

  /** The descendants of an element with only leaf children are those
      children. */
  lemma DescendantsOfShallow(e: Element)
    requires Shallow(e)
    ensures Descendants(e) == e.children
  {
    DescendantsOfShallowFrom(e, 0);
  }

  /** Two-level trees: a root whose children have only leaf children. A
      search for the children's tag, which no leaf carries, finds exactly
      the root's children. */
  predicate TwoLevel(root: Element, tag: string) {
    forall i :: 0 <= i < |root.children| ==>
      root.children[i].tag == tag && Shallow(root.children[i])
      && forall j :: 0 <= j < |root.children[i].children| ==> root.children[i].children[j].tag != tag
  }

  /** A child of a two-level root contributes itself and nothing below. */
  lemma TwoLevelChild(c: Element, tag: string)
    requires c.tag == tag && Shallow(c)
    requires forall j :: 0 <= j < |c.children| ==> c.children[j].tag != tag
    ensures Select([c] + Descendants(c), TagOf, tag) == [c]
  {
    DescendantsOfShallow(c);
    assert tag !in Image(c.children, TagOf);
    SelectAbsent(c.children, TagOf, tag);
    SelectConcat([c], c.children, TagOf, tag);
    assert [c][1..] == [];
  }

  lemma {:induction false} FindAllTwoLevelFrom(root: Element, tag: string, i: nat)
    requires i <= |root.children| && TwoLevel(root, tag)
    ensures Select(DescendantsFrom(root, i), TagOf, tag) == root.children[i..]
    decreases |root.children| - i
  {
    if i < |root.children| {
      var c := root.children[i];
      FindAllTwoLevelFrom(root, tag, i + 1);
      TwoLevelChild(c, tag);
      SelectConcat([c] + Descendants(c), DescendantsFrom(root, i + 1), TagOf, tag);
      assert root.children[i..] == [c] + root.children[i + 1..];
    }
  }

  lemma FindAllTwoLevel(root: Element, tag: string)
    requires TwoLevel(root, tag)
    ensures FindAll(root, tag) == root.children
  {
    FindAllTwoLevelFrom(root, tag, 0);
  }

  /** A root whose children have only leaf children, none of the tag. */
  predicate TwoLevelWithout(root: Element, tag: string) {
    forall i :: 0 <= i < |root.children| ==>
      root.children[i].tag != tag && Shallow(root.children[i])
      && forall j :: 0 <= j < |root.children[i].children| ==> root.children[i].children[j].tag != tag
  }

  lemma {:induction false} FindAllAbsentFrom(root: Element, tag: string, i: nat)
    requires i <= |root.children| && TwoLevelWithout(root, tag)
    ensures Select(DescendantsFrom(root, i), TagOf, tag) == []
    decreases |root.children| - i
  {
    if i < |root.children| {
      var c := root.children[i];
      FindAllAbsentFrom(root, tag, i + 1);
      DescendantsOfShallow(c);
      assert tag !in Image([c] + c.children, TagOf);
      SelectAbsent([c] + c.children, TagOf, tag);
      SelectConcat([c] + Descendants(c), DescendantsFrom(root, i + 1), TagOf, tag);
    }
  }

  /** Such a root has nothing for `findall('.//tag')` to find. */
  lemma FindAllAbsent(root: Element, tag: string)
    requires TwoLevelWithout(root, tag)
    ensures FindAll(root, tag) == []
  {
    FindAllAbsentFrom(root, tag, 0);
  }

  /** Taking local names changes nothing in a tree without qualified tags. */
  lemma {:induction false} LocalNamesOfPlain(e: Element)
    requires Plain(e)
    ensures LocalNames(e) == e
    decreases e
  {
    var r := LocalNames(e);
    forall i | 0 <= i < |e.children|
      ensures r.children[i] == e.children[i]
    {
      LocalNamesOfPlain(e.children[i]);
    }
  }
}
