/** The reader of the national procurement platform's syndication feeds
    (scraper/scraper_spain_placsp.py): each feed of `PLACSP_FEEDS` is
    fetched and parsed as RSS, namespaced Atom or plain Atom; the entries
    are optionally filtered by technology keywords, capped at `MAX_ITEMS`,
    and stored under the source code `ES-PLACSP`. */
module Placsp {
  import opened Common
  import opened Xml
  import opened Html
  import opened Dates
  import opened Feed
  import opened Keywords
  import opened Tender

  const SourceCode: string := "ES-PLACSP"
  const Country: string := "ES"

  // ---------------------------------------------------------------------
  // parse_rss_or_atom

  /** An RSS `<item>`, every field stripped; unlike the other readers the
      description keeps its markup, so only whitespace at its ends goes. */
  function RssItem(it: Element): (r: Item)
    ensures StrippedOf(FindText(it, "title"), r.title) && StrippedOf(FindText(it, "link"), r.link)
    ensures StrippedOf(FindText(it, "description"), r.summary)
    ensures NonSpace(r.summary) == NonSpace(FindText(it, "description"))
    ensures StrippedOf(FindText(it, "pubDate"), r.published)
  {
    StripKeepsNonSpace(FindText(it, "description"));
    Item(Strip(FindText(it, "title")), Strip(FindText(it, "link")),
         Strip(FindText(it, "description")), Strip(FindText(it, "pubDate")))
  }

  /** An Atom entry read with tags in namespace `ns` (`""` for none): the
      link is the `href` of the first `<link>`, not stripped; the other
      fields are stripped, the summary falling back to the content and the
      update date to the publication date. */
  function AtomItem(e: Element, ns: string): (r: Item)
    ensures Find(e, ns + "link").Some? && "href" in Find(e, ns + "link").value.attrib ==>
              r.link == Find(e, ns + "link").value.attrib["href"]
    ensures Find(e, ns + "link").None? || "href" !in Find(e, ns + "link").value.attrib ==> r.link == []
    ensures StrippedOf(FindText(e, ns + "title"), r.title)
    ensures FindText(e, ns + "summary") != [] ==> StrippedOf(FindText(e, ns + "summary"), r.summary)
    ensures FindText(e, ns + "summary") == [] ==> StrippedOf(FindText(e, ns + "content"), r.summary)
    ensures FindText(e, ns + "updated") != [] ==> StrippedOf(FindText(e, ns + "updated"), r.published)
    ensures FindText(e, ns + "updated") == [] ==> StrippedOf(FindText(e, ns + "published"), r.published)
  {
    Item(Strip(FindText(e, ns + "title")), Href(e, ns + "link"),
         Strip(Or(FindText(e, ns + "summary"), FindText(e, ns + "content"))),
         Strip(Or(FindText(e, ns + "updated"), FindText(e, ns + "published"))))
  }

  function MapRss(es: seq<Element>): (r: seq<Item>)
    ensures |r| == |es| && forall i :: 0 <= i < |es| ==> r[i] == RssItem(es[i])
  {
    seq(|es|, i requires 0 <= i < |es| => RssItem(es[i]))
  }

  function MapAtom(es: seq<Element>, ns: string): (r: seq<Item>)
    ensures |r| == |es| && forall i :: 0 <= i < |es| ==> r[i] == AtomItem(es[i], ns)
  {
    seq(|es|, i requires 0 <= i < |es| => AtomItem(es[i], ns))
  }

  /** `parse_rss_or_atom`: the RSS items anywhere below the root if there
      are any, else the namespaced Atom entries anywhere below it if there
      are any, else the entries without namespace. */
  function ParseRssOrAtom(root: Element): (r: seq<Item>)
    ensures FindAllDeep(root, "item") != [] ==> r == MapRss(FindAllDeep(root, "item"))
    ensures FindAllDeep(root, "item") == [] && FindAllDeep(root, Atom("entry")) != [] ==>
              r == MapAtom(FindAllDeep(root, Atom("entry")), AtomNs)
    ensures FindAllDeep(root, "item") == [] && FindAllDeep(root, Atom("entry")) == [] ==>
              r == MapAtom(FindAllDeep(root, "entry"), "")
  {
    var rss := FindAllDeep(root, "item");
    if rss != [] then MapRss(rss)
    else
      var atom := FindAllDeep(root, Atom("entry"));
      if atom != [] then MapAtom(atom, AtomNs)
      else MapAtom(FindAllDeep(root, "entry"), "")
  }

  /** Every item comes from one of the three selections, and the RSS
      selection wins when it is non-empty. */
  lemma ParsedCount(root: Element)
    ensures |ParseRssOrAtom(root)| == if FindAllDeep(root, "item") != [] then |FindAllDeep(root, "item")|
                                      else if FindAllDeep(root, Atom("entry")) != [] then |FindAllDeep(root, Atom("entry"))|
                                      else |FindAllDeep(root, "entry")|
    ensures ParseRssOrAtom(root) == [] <==>
              FindAllDeep(root, "item") == [] && FindAllDeep(root, Atom("entry")) == [] && FindAllDeep(root, "entry") == []
  {
  }

  // ---------------------------------------------------------------------
  // parse_date

  /** `parse_date(s)`: the stripped text with every `Z` turned into
      `+0000`, tried against the five `strptime` layouts in order, then
      `fromisoformat`; the current time `now` when all fail. */
  function ParseDate(s: string, now: DateTime): (r: DateTime)
    ensures r == now || Valid(r)
    ensures var t := Replace(Strip(s), 'Z', "+0000");
            StrpRfc(t).Some? ==> r == StrpRfc(t).value
    ensures var t := Replace(Strip(s), 'Z', "+0000");
            StrpRfc(t).None? && StrpSlash(t).Some? ==> r == StrpSlash(t).value
    ensures var t := Replace(Strip(s), 'Z', "+0000");
            StrpRfc(t).None? && StrpSlash(t).None? && StrpIsoZoned(t).Some? ==> r == StrpIsoZoned(t).value
    ensures var t := Replace(Strip(s), 'Z', "+0000");
            (&& StrpRfc(t).None? && StrpSlash(t).None? && StrpIsoZoned(t).None?
             && StrpIsoNaive(t).Some?) ==> r == StrpIsoNaive(t).value
    ensures var t := Replace(Strip(s), 'Z', "+0000");
            (&& StrpRfc(t).None? && StrpSlash(t).None? && StrpIsoZoned(t).None?
             && StrpIsoNaive(t).None? && StrpDate(t).Some?) ==> r == StrpDate(t).value
    ensures var t := Replace(Strip(s), 'Z', "+0000");
            (&& StrpRfc(t).None? && StrpSlash(t).None? && StrpIsoZoned(t).None?
             && StrpIsoNaive(t).None? && StrpDate(t).None? && ParseIso(t).Some?) ==> r == ParseIso(t).value
    ensures var t := Replace(Strip(s), 'Z', "+0000");
            (&& StrpRfc(t).None? && StrpSlash(t).None? && StrpIsoZoned(t).None?
             && StrpIsoNaive(t).None? && StrpDate(t).None? && ParseIso(t).None?) ==> r == now
  {
    var t := Replace(Strip(s), 'Z', "+0000");
    if StrpRfc(t).Some? then StrpRfc(t).value
    else if StrpSlash(t).Some? then StrpSlash(t).value
    else if StrpIsoZoned(t).Some? then StrpIsoZoned(t).value
    else if StrpIsoNaive(t).Some? then StrpIsoNaive(t).value
    else if StrpDate(t).Some? then StrpDate(t).value
    else
      assert 'Z' !in t;
      if ParseIso(Replace(t, 'Z', "+00:00")).Some? then ParseIso(Replace(t, 'Z', "+00:00")).value
      else now
  }

  /** The date is aware exactly when one of the zoned layouts matched, and
      only `+0000` stands for a `Z`, so an entry dated in UTC keeps offset 0. */
  lemma ParseDateZoned(s: string, now: DateTime)
    requires now.offset.None?
    ensures ParseDate(s, now).offset.Some? ==>
              var t := Replace(Strip(s), 'Z', "+0000");
              StrpRfc(t).Some? || StrpIsoZoned(t).Some? || (ParseIso(t).Some? && ParseIso(t).value.offset.Some?)
  {
    var t := Replace(Strip(s), 'Z', "+0000");
    assert 'Z' !in t;
    assert Replace(t, 'Z', "+00:00") == t;
    if StrpRfc(t).None? && StrpSlash(t).None? && StrpIsoZoned(t).None? {
      assert StrpIsoNaive(t).Some? ==> ParseDate(s, now).offset.None?;
      assert StrpIsoNaive(t).None? && StrpDate(t).Some? ==> ParseDate(s, now).offset.None?;
    }
  }

  // ---------------------------------------------------------------------
  // main

  /** The storing loop of this reader. */
  function SaverOf(env: Env): Saver {
    Saver(env.store, SourceCode, Country, s => ParseDate(s, env.now), env.hash)
  }

  /** `STRICT_FILTER`: the variable, `"true"` when unset, lower-cased and
      compared with `"true"`. No character outside ASCII lower-cases to
      `t`, `r`, `u` or `e`, so ASCII lower-casing decides the comparison. */
  function StrictFilter(v: Option<string>): (r: bool)
    ensures v.None? ==> r
    ensures v.Some? ==> (r <==> Lower(v.value) == "true")
  {
    match v
    case None => true
    case Some(x) => Lower(x) == "true"
  }

  /** The entries of one feed that are stored: filtered when `strict`, then
      `filtered[:maxItems]`. */
  function Selected(items: seq<Item>, strict: bool, maxItems: int): (r: seq<Item>)
    ensures |r| <= |items|
    ensures 0 <= maxItems ==> |r| <= maxItems
    ensures forall x :: x in r ==> x in items
    ensures strict ==> forall x :: x in r ==> Relevant(ItemText(x), PlacspKeywords)
    ensures strict ==> r == PySlicePrefix(KeepRelevant(items, PlacspKeywords), maxItems)
    ensures !strict ==> r == PySlicePrefix(items, maxItems)
  {
    var f := Filter(items, strict, PlacspKeywords);
    var r := PySlicePrefix(f, maxItems);
    assert forall k :: 0 <= k < |r| ==> r[k] == f[k];
    r
  }

  /** With the filter on and a non-negative cap, the stored entries are
      the first `maxItems` relevant ones, in feed order. */
  lemma StrictKeepsFirstRelevant(items: seq<Item>, maxItems: nat)
    ensures IsSubsequence(Selected(items, true, maxItems), items)
    ensures |Selected(items, true, maxItems)| == if |KeepRelevant(items, PlacspKeywords)| <= maxItems
                                               then |KeepRelevant(items, PlacspKeywords)| else maxItems
    ensures forall i :: 0 <= i < |items| && IsRelevant(items[i], PlacspKeywords)
                        && |KeepRelevant(items[..i], PlacspKeywords)| < maxItems ==>
              items[i] in Selected(items, true, maxItems)
  {
    FrontOfRelevant(items, PlacspKeywords, maxItems);
  }

  /** One feed: skipped (0) when the fetch raises or the bytes are not XML;
      otherwise the number of selected entries whose upsert and category
      assignment both succeed. */
  function ProcessFeed(env: Env, url: string, strict: bool, maxItems: int): (n: nat)
    ensures StrictFetch(env.fetch(url)).None? ==> n == 0
    ensures StrictFetch(env.fetch(url)).Some? && env.parseXml(StrictFetch(env.fetch(url)).value).None? ==> n == 0
    ensures StrictFetch(env.fetch(url)).Some? && env.parseXml(StrictFetch(env.fetch(url)).value).Some? ==>
              var sel := Selected(ParseRssOrAtom(env.parseXml(StrictFetch(env.fetch(url)).value).value), strict, maxItems);
              n == SavedCount(SaverOf(env), sel)
  {
    match StrictFetch(env.fetch(url))
    case None => 0
    case Some(body) =>
      match env.parseXml(body)
      case None => 0
      case Some(root) => SavedCount(SaverOf(env), Selected(ParseRssOrAtom(root), strict, maxItems))
  }

  /** The number saved by each feed of the list, in order. */
  function FeedCounts(env: Env, urls: seq<string>, strict: bool, maxItems: int): (r: seq<nat>)
    ensures |r| == |urls| && forall i :: 0 <= i < |urls| ==> r[i] == ProcessFeed(env, urls[i], strict, maxItems)
  {
    seq(|urls|, i requires 0 <= i < |urls| => ProcessFeed(env, urls[i], strict, maxItems))
  }

  /** `main` with the module-level configuration: a blank `PLACSP_FEEDS`
      exits (`SystemExit`) before anything is read. */
  function Run(env: Env, feeds: string, strictVar: Option<string>, maxItems: int): (r: Outcome<nat>)
    ensures r.Raised? <==> Strip(feeds) == []
    ensures r.Done? ==> r.value == Sum(FeedCounts(env, FeedList(Strip(feeds)), StrictFilter(strictVar), maxItems))
  {
    if Strip(feeds) == [] then Raised
    else Done(Sum(FeedCounts(env, FeedList(Strip(feeds)), StrictFilter(strictVar), maxItems)))
  }

  /** Each feed stores at most `MAX_ITEMS` entries, whatever it holds. */
  lemma FeedBounded(env: Env, url: string, strict: bool, maxItems: nat)
    ensures ProcessFeed(env, url, strict, maxItems) <= maxItems
  {
    match StrictFetch(env.fetch(url))
    case None =>
    case Some(body) =>
      match env.parseXml(body)
      case None =>
      case Some(root) =>
        var sel := Selected(ParseRssOrAtom(root), strict, maxItems);
        assert SavedCount(SaverOf(env), sel) <= |sel| <= maxItems;
  }

  /** A run stores at most `MAX_ITEMS` entries per feed. */
  lemma FeedsBounded(env: Env, urls: seq<string>, strict: bool, maxItems: nat)
    ensures Sum(FeedCounts(env, urls, strict, maxItems)) <= |urls| * maxItems
  {
    forall i | 0 <= i < |urls| ensures FeedCounts(env, urls, strict, maxItems)[i] <= maxItems {
      FeedBounded(env, urls[i], strict, maxItems);
    }
    SumAtMost(FeedCounts(env, urls, strict, maxItems), maxItems);
  }

  /** The total over two lists of feeds read one after the other is the
      sum of their totals. */
  lemma TotalAppend(env: Env, a: seq<string>, b: seq<string>, strict: bool, maxItems: int)
    ensures Sum(FeedCounts(env, a + b, strict, maxItems))
            == Sum(FeedCounts(env, a, strict, maxItems)) + Sum(FeedCounts(env, b, strict, maxItems))
  {
    assert FeedCounts(env, a + b, strict, maxItems) == FeedCounts(env, a, strict, maxItems) + FeedCounts(env, b, strict, maxItems);
    SumAppend(FeedCounts(env, a, strict, maxItems), FeedCounts(env, b, strict, maxItems));
  }

  /** A feed that cannot be fetched adds nothing, and the feeds after it
      are still read and counted. */
  lemma FailedFeedSkipped(env: Env, urls: seq<string>, strict: bool, maxItems: int)
    requires urls != [] && StrictFetch(env.fetch(urls[0])).None?
    ensures Sum(FeedCounts(env, urls, strict, maxItems)) == Sum(FeedCounts(env, urls[1..], strict, maxItems))
  {
    assert FeedCounts(env, urls, strict, maxItems)[1..] == FeedCounts(env, urls[1..], strict, maxItems);
  }

  /** A negative `MAX_ITEMS` does not disable the cap: the slice drops
      that many entries from the end. */
  lemma NegativeCapDropsFromEnd(items: seq<Item>, maxItems: int)
    requires maxItems < 0 && -maxItems <= |items|
    ensures Selected(items, false, maxItems) == items[..|items| + maxItems]
  {
  }
}
