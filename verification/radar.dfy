/** The TED reader (scraper/scraper_radar.py): each source of `SOURCES` is
    fetched and parsed as Atom; the entries whose title or summary mention
    a technology keyword are kept, at most 200 of them, and each is stored
    under the source's code. Unlike the PLACSP reader the filter cannot be
    switched off. */
module Radar {
  import opened Common
  import opened Xml
  import opened Dates
  import opened Feed
  import opened Keywords
  import opened Tender

  /** The country every TED tender is stored under. */
  const Country: string := "EU"

  /** At most this many entries of a source are stored. */
  const MaxItems: nat := 200

  /** One entry of `SOURCES`: a source code and the feed it reads. */
  datatype Source = Source(code: string, url: string)

  const Sources: seq<Source> := [Source("TED", "https://ted.europa.eu/udl?uri=TED:FEED:ES:ATOM")]

  // ---------------------------------------------------------------------
  // parse_atom

  /** One Atom entry: title and summary stripped, the summary falling back
      to the content; the link (the `href` of the first Atom `<link>`) and
      the date (the update date, else the publication date) as they stand. */
  function EntryItem(e: Element): (r: Item)
    ensures StrippedOf(FindText(e, Atom("title")), r.title)
    ensures Find(e, Atom("link")).Some? && "href" in Find(e, Atom("link")).value.attrib ==>
              r.link == Find(e, Atom("link")).value.attrib["href"]
    ensures Find(e, Atom("link")).None? || "href" !in Find(e, Atom("link")).value.attrib ==> r.link == []
    ensures FindText(e, Atom("summary")) != [] ==> StrippedOf(FindText(e, Atom("summary")), r.summary)
    ensures FindText(e, Atom("summary")) == [] ==> StrippedOf(FindText(e, Atom("content")), r.summary)
    ensures FindText(e, Atom("updated")) != [] ==> r.published == FindText(e, Atom("updated"))
    ensures FindText(e, Atom("updated")) == [] ==> r.published == FindText(e, Atom("published"))
  {
    Item(Strip(FindText(e, Atom("title"))), Href(e, Atom("link")),
         Strip(Or(FindText(e, Atom("summary")), FindText(e, Atom("content")))),
         Or(FindText(e, Atom("updated")), FindText(e, Atom("published"))))
  }

  /** `parse_atom`: the Atom entries anywhere below the root, in document
      order; entries without the Atom namespace are not read. */
  function ParseAtom(root: Element): (r: seq<Item>)
    ensures |r| == |FindAllDeep(root, Atom("entry"))|
    ensures forall i :: 0 <= i < |r| ==> r[i] == EntryItem(FindAllDeep(root, Atom("entry"))[i])
  {
    var es := FindAllDeep(root, Atom("entry"));
    seq(|es|, i requires 0 <= i < |es| => EntryItem(es[i]))
  }

  // ---------------------------------------------------------------------
  // parse_date

  /** `parse_date(s)`: the text (not stripped) with every `Z` turned into
      `+0000`, tried against the three ISO `strptime` layouts, then
      `fromisoformat` on the text with every `Z` turned into `+00:00`; the
      current time `now` when all fail. */
  function ParseDate(s: string, now: DateTime): (r: DateTime)
    ensures r == now || Valid(r)
    ensures var t := Replace(s, 'Z', "+0000");
            StrpIsoZoned(t).Some? ==> r == StrpIsoZoned(t).value
    ensures var t := Replace(s, 'Z', "+0000");
            StrpIsoZoned(t).None? && StrpIsoNaive(t).Some? ==> r == StrpIsoNaive(t).value
    ensures var t := Replace(s, 'Z', "+0000");
            StrpIsoZoned(t).None? && StrpIsoNaive(t).None? && StrpDate(t).Some? ==> r == StrpDate(t).value
    ensures var t, u := Replace(s, 'Z', "+0000"), Replace(s, 'Z', "+00:00");
            (&& StrpIsoZoned(t).None? && StrpIsoNaive(t).None? && StrpDate(t).None?
             && ParseIso(u).Some?) ==> r == ParseIso(u).value
    ensures var t := Replace(s, 'Z', "+0000");
            (&& StrpIsoZoned(t).None? && StrpIsoNaive(t).None? && StrpDate(t).None?
             && ParseIso(Replace(s, 'Z', "+00:00")).None?) ==> r == now
  {
    var t := Replace(s, 'Z', "+0000");
    if StrpIsoZoned(t).Some? then StrpIsoZoned(t).value
    else if StrpIsoNaive(t).Some? then StrpIsoNaive(t).value
    else if StrpDate(t).Some? then StrpDate(t).value
    else if ParseIso(Replace(s, 'Z', "+00:00")).Some? then ParseIso(Replace(s, 'Z', "+00:00")).value
    else now
  }

  /** The usual TED date, a wall-clock time with a `Z` suffix, is read as
      that time at offset 0; an impossible date or time falls back to the
      clock. */
  lemma UtcStampDated(d: string, now: DateTime)
    requires Shape(d, IsoSeconds)
    ensures StrpIsoNaive(d).Some? ==> ParseDate(d + "Z", now) == StrpIsoNaive(d).value.(offset := Some(0))
    ensures StrpIsoNaive(d).None? ==> ParseDate(d + "Z", now) == now
  {
    IsoSecondsNoZ(d);
    ReplaceAppend(d, "Z", 'Z', "+0000");
    ReplaceAppend(d, "Z", 'Z', "+00:00");
    assert Replace("Z", 'Z', "+0000") == "+0000";
    assert Replace("Z", 'Z', "+00:00") == "+00:00";
    UtcSuffixStrp(d);
    UtcSuffixIso(d);
    var t := d + "+0000";
    assert !Shape(t, IsoSeconds) && !Shape(t, "9999-99-99");
  }

  // ---------------------------------------------------------------------
  // main

  /** The storing loop for one source. */
  function SaverOf(env: Env, code: string): Saver {
    Saver(env.store, code, Country, s => ParseDate(s, env.now), env.hash)
  }

  /** The entries of a source that are stored: the relevant ones, in feed
      order, cut to the first 200. */
  function Selected(items: seq<Item>): (r: seq<Item>)
    ensures |r| <= MaxItems
    ensures forall x :: x in r ==> x in items && Relevant(ItemText(x), RadarKeywords)
    ensures r == Prefix(KeepRelevant(items, RadarKeywords), MaxItems)
  {
    Prefix(Filter(items, true, RadarKeywords), MaxItems)
  }

  /** The stored entries are the first 200 relevant ones, in feed order:
      every relevant entry with fewer than 200 relevant entries before it
      is stored, and all of them when there are at most 200. */
  lemma SelectedKeepsRelevant(items: seq<Item>)
    ensures IsSubsequence(Selected(items), items)
    ensures |Selected(items)| == if |KeepRelevant(items, RadarKeywords)| <= MaxItems
                                 then |KeepRelevant(items, RadarKeywords)| else MaxItems
    ensures forall i :: 0 <= i < |items| && IsRelevant(items[i], RadarKeywords)
                        && |KeepRelevant(items[..i], RadarKeywords)| < MaxItems ==>
              items[i] in Selected(items)
    ensures |KeepRelevant(items, RadarKeywords)| <= MaxItems ==>
              forall i :: 0 <= i < |items| && IsRelevant(items[i], RadarKeywords) ==> items[i] in Selected(items)
  {
    FrontOfRelevant(items, RadarKeywords, MaxItems);
  }

  /** One source: nothing when the fetch raises or the bytes are not XML;
      otherwise the number of selected entries whose upsert and category
      assignment both succeed. */
  function ProcessSource(env: Env, src: Source): (n: nat)
    ensures n <= MaxItems
    ensures StrictFetch(env.fetch(src.url)).None? ==> n == 0
    ensures StrictFetch(env.fetch(src.url)).Some? && env.parseXml(StrictFetch(env.fetch(src.url)).value).None? ==> n == 0
    ensures StrictFetch(env.fetch(src.url)).Some? && env.parseXml(StrictFetch(env.fetch(src.url)).value).Some? ==>
              n == SavedCount(SaverOf(env, src.code), Selected(ParseAtom(env.parseXml(StrictFetch(env.fetch(src.url)).value).value)))
  {
    match StrictFetch(env.fetch(src.url))
    case None => 0
    case Some(body) =>
      match env.parseXml(body)
      case None => 0
      case Some(root) =>
        var sel := Selected(ParseAtom(root));
        SavedCount(SaverOf(env, src.code), sel)
  }

  /** `main`: the total over `SOURCES`, whose only source is TED. */
  function Run(env: Env): (n: nat)
    ensures n <= |Sources| * MaxItems
    ensures n == ProcessSource(env, Sources[0])
  {
    var counts := seq(|Sources|, i requires 0 <= i < |Sources| => ProcessSource(env, Sources[i]));
    SumAtMost(counts, MaxItems);
    Sum(counts)
  }

  /** Every stored tender is a relevant entry of the feed, stored under the
      source's code and the country `EU`. */
  lemma StoredAreRelevant(env: Env, src: Source, root: Element, x: Item)
    requires x in Selected(ParseAtom(root))
    ensures Relevant(ItemText(x), RadarKeywords)
    ensures x in ParseAtom(root)
    ensures PayloadOf(SaverOf(env, src.code), x).sourceCode == src.code
    ensures PayloadOf(SaverOf(env, src.code), x).country == Country
  {
  }
}
