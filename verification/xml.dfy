/** The part of `xml.etree.ElementTree` the scrapers use, over an abstract
    element tree: the parser itself is not modelled, its output is. */
module Xml {
  import opened Common

  /** An element as ElementTree presents it. A namespaced tag is spelled
      `{uri}local`; `text` is the text before the first child, `""` standing
      for Python's `None` (every read of it in the scrapers is `text or ""`
      or goes through `findtext`, which makes the same identification). */
  datatype Element = Element(tag: string, attrib: map<string, string>, text: string, children: seq<Element>)

  /** The Atom namespace of RFC 4287, as ElementTree prefixes it. */
  const AtomNs: string := "{http://www.w3.org/2005/Atom}"

  function Atom(local: string): string { AtomNs + local }

  /** The first element of `cs` carrying `tag`. */
  function FirstWithTag(cs: seq<Element>, tag: string): (r: Option<Element>)
    ensures r.None? <==> forall i :: 0 <= i < |cs| ==> cs[i].tag != tag
    ensures r.Some? ==> exists i :: FirstAt(cs, tag, i) && cs[i] == r.value
  {
    if cs == [] then None
    else if cs[0].tag == tag then (assert FirstAt(cs, tag, 0); Some(cs[0]))
    else
      var r := FirstWithTag(cs[1..], tag);
      if r.Some? then
        var i :| FirstAt(cs[1..], tag, i) && cs[1..][i] == r.value;
        assert FirstAt(cs, tag, i + 1);
        r
      else r
  }

  /** `cs[i]` is the first element of `cs` with `tag`. */
  predicate FirstAt(cs: seq<Element>, tag: string, i: int) {
    0 <= i < |cs| && cs[i].tag == tag && forall j :: 0 <= j < i ==> cs[j].tag != tag
  }

  /** `e.find(tag)`: the first direct child with that tag. */
  function Find(e: Element, tag: string): Option<Element> {
    FirstWithTag(e.children, tag)
  }

  /** `(e.findtext(tag) or "")`: the text of the first direct child with that
      tag, `""` when there is no such child or it has no text. */
  function FindText(e: Element, tag: string): (r: string)
    ensures Find(e, tag).None? ==> r == ""
    ensures Find(e, tag).Some? ==> r == Find(e, tag).value.text
  {
    match Find(e, tag)
    case Some(c) => c.text
    case None => ""
  }

  /** The elements of `cs` carrying `tag`, in order. */
  function WithTag(cs: seq<Element>, tag: string): (r: seq<Element>)
    ensures |r| <= |cs|
    ensures forall x :: x in r ==> x in cs && x.tag == tag
    ensures forall i :: 0 <= i < |cs| && cs[i].tag == tag ==> cs[i] in r
  {
    if cs == [] then []
    else (if cs[0].tag == tag then [cs[0]] else []) + WithTag(cs[1..], tag)
  }

  /** Selecting by tag distributes over concatenation, so it keeps the
      document order of the selected elements. */
  lemma {:induction false} WithTagAppend(a: seq<Element>, b: seq<Element>, tag: string)
    ensures WithTag(a + b, tag) == WithTag(a, tag) + WithTag(b, tag)
  {
    if a != [] {
      assert (a + b)[0] == a[0];
      assert (a + b)[1..] == a[1..] + b;
      WithTagAppend(a[1..], b, tag);
    } else {
      assert a + b == b;
    }
  }

  /** `e.findall(tag)` for a plain child path (`"./item"`, `"./a:entry"`). */
  function FindAll(e: Element, tag: string): seq<Element> {
    WithTag(e.children, tag)
  }

  /** Every element strictly below `e`, in document (pre-)order. */
  function Descendants(e: Element): seq<Element>
    decreases e, 1
  {
    DescendantsOf(e.children)
  }

  function DescendantsOf(cs: seq<Element>): seq<Element>
    decreases cs, 0
  {
    if cs == [] then []
    else [cs[0]] + Descendants(cs[0]) + DescendantsOf(cs[1..])
  }

  /** `e.findall(".//tag")`: every element strictly below `e` with that tag,
      in document order. */
  function FindAllDeep(e: Element, tag: string): seq<Element> {
    WithTag(Descendants(e), tag)
  }

  /** Each child is among the descendants, and precedes its own subtree. */
  lemma {:induction false} ChildrenAreDescendants(cs: seq<Element>)
    ensures forall i :: 0 <= i < |cs| ==> cs[i] in DescendantsOf(cs)
    decreases cs
  {
    if cs != [] {
      ChildrenAreDescendants(cs[1..]);
      forall i | 0 <= i < |cs|
        ensures cs[i] in DescendantsOf(cs)
      {
        if i > 0 { assert cs[i] == cs[1..][i - 1]; }
      }
    }
  }

  /** The direct children found by `findall("./tag")` are all among those
      found by `findall(".//tag")`. */
  lemma ShallowWithinDeep(e: Element, tag: string)
    ensures forall x :: x in FindAll(e, tag) ==> x in FindAllDeep(e, tag)
  {
    ChildrenAreDescendants(e.children);
    forall x | x in FindAll(e, tag)
      ensures x in FindAllDeep(e, tag)
    {
      var i :| 0 <= i < |e.children| && e.children[i] == x;
      assert x in Descendants(e);
    }
  }

  /** `el.attrib.get(name)`. */
  function Attr(e: Element, name: string): (r: Option<string>)
    ensures r.Some? <==> name in e.attrib
    ensures r.Some? ==> r.value == e.attrib[name]
  {
    if name in e.attrib then Some(e.attrib[name]) else None
  }

  /** `link_el.get("href")` of the first child with tag `linkTag`, `""`
      without one. An absent `href` gives `None`, which the PLACSP and TED
      readers treat as `""` wherever they use the link (`link or ...`,
      `url or ...`, a log line). */
  function Href(e: Element, linkTag: string): (r: string)
    ensures Find(e, linkTag).None? ==> r == []
    ensures Find(e, linkTag).Some? && Attr(Find(e, linkTag).value, "href").None? ==> r == []
    ensures Find(e, linkTag).Some? && Attr(Find(e, linkTag).value, "href").Some? ==>
              r == Attr(Find(e, linkTag).value, "href").value
  {
    match Find(e, linkTag)
    case None => ""
    case Some(l) =>
      match Attr(l, "href")
      case Some(h) => h
      case None => ""
  }

  /** The entry has an Atom `<link>` without `href`. */
  predicate HrefMissing(e: Element) {
    Find(e, Atom("link")).Some? && Attr(Find(e, Atom("link")).value, "href").None?
  }

  /** The root is an RSS document: its tag, lower-cased, ends in `rss`.
      Only `R` and `S` lower-case to `r` and `s`, so ASCII lower-casing
      decides the suffix as `str.lower` does. */
  predicate IsRssRoot(root: Element) {
    EndsWith(Lower(root.tag), "rss")
  }
}
