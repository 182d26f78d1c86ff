/** The reader of the official state gazette (scraper/scraper_spain_boe.py):
    each feed of `BOE_FEEDS` is fetched, rejected when it is an HTML page,
    parsed as RSS or Atom, and every entry is sent to `radar.upsert_tender`
    under the source code `ES-BOE`. */
module Boe {
  import opened Common
  import opened Xml
  import opened Html
  import opened Dates
  import opened Feed
  import opened Identity

  const SourceCode: string := "ES-BOE"

  // ---------------------------------------------------------------------
  // fetch: the HTML sniff

  /** How many leading bytes the sniff inspects. */
  const HeadLength: nat := 200

  /** The bytes of an ASCII text. */
  function Ascii(s: string): (r: seq<byte>)
    requires forall i :: 0 <= i < |s| ==> s[i] as int < 128
    ensures |r| == |s| && forall i :: 0 <= i < |s| ==> r[i] as int == s[i] as int
  {
    seq(|s|, i requires 0 <= i < |s| => s[i] as int as byte)
  }

  const DoctypeHtml: seq<byte> := Ascii("<!doctype html")
  const HtmlTag: seq<byte> := Ascii("<html")

  /** `bytes.lower()` on one byte: only `A`-`Z` change. */
  function LowerByte(b: byte): byte {
    if 65 <= b <= 90 then b + 32 else b
  }

  function LowerBytes(bs: seq<byte>): (r: seq<byte>)
    ensures |r| == |bs| && forall i :: 0 <= i < |bs| ==> r[i] == LowerByte(bs[i])
  {
    seq(|bs|, i requires 0 <= i < |bs| => LowerByte(bs[i]))
  }

  /** `n in h` for byte strings: `n` occurs in `h` as a contiguous run. */
  predicate Occurs(n: seq<byte>, h: seq<byte>) {
    exists i :: 0 <= i <= |h| - |n| && OccursAt(n, h, i)
  }

  predicate OccursAt(n: seq<byte>, h: seq<byte>, i: int) {
    0 <= i && i + |n| <= |h| && h[i..i + |n|] == n
  }

  /** The first 200 bytes, lower-cased, open with an HTML doctype or
      contain an `<html` tag. */
  predicate LooksLikeHtml(body: seq<byte>) {
    var head := LowerBytes(Prefix(body, HeadLength));
    DoctypeHtml <= head || Occurs(HtmlTag, head)
  }

  /** `fetch(url)`: the body, or `None` on an exception, a status of 400 or
      more, an empty body or an HTML page. */
  function BoeFetch(resp: Response): (r: Option<seq<byte>>)
    ensures r.Some? <==> LenientFetch(resp).Some? && !LooksLikeHtml(resp.body)
    ensures r.Some? ==> r.value == resp.body
  {
    match LenientFetch(resp)
    case None => None
    case Some(body) => if LooksLikeHtml(body) then None else Some(body)
  }

  /** The sniff reads the first 200 bytes only: what follows them never
      changes the verdict. */
  lemma SniffReadsHead(body: seq<byte>, more: seq<byte>)
    requires |body| >= HeadLength
    ensures LooksLikeHtml(body + more) <==> LooksLikeHtml(body)
  {
    assert Prefix(body + more, HeadLength) == Prefix(body, HeadLength);
  }

  /** The sniff ignores letter case: a page and its lower-cased copy get
      the same verdict. */
  lemma SniffIgnoresCase(body: seq<byte>)
    ensures LooksLikeHtml(LowerBytes(body)) <==> LooksLikeHtml(body)
  {
    assert LowerBytes(Prefix(LowerBytes(body), HeadLength)) == LowerBytes(Prefix(body, HeadLength));
  }

  /** An upper-case doctype is recognised: such a page is never parsed. */
  lemma UpperDoctypeRejected(rest: seq<byte>)
    ensures BoeFetch(Response(200, Ascii("<!DOCTYPE HTML>") + rest)).None?
  {
    var body := Ascii("<!DOCTYPE HTML>") + rest;
    var head := LowerBytes(Prefix(body, HeadLength));
    assert head[..|DoctypeHtml|] == DoctypeHtml;
  }

  // ---------------------------------------------------------------------
  // Items

  /** `get_text(elem, path)`: the stripped text of the first child with
      that tag, `""` without one. */
  function GetText(e: Element, tag: string): (r: string)
    ensures StrippedOf(FindText(e, tag), r)
    ensures Find(e, tag).None? ==> r == []
  {
    Strip(FindText(e, tag))
  }

  /** An RSS `<item>`: the four texts, the description through
      `strip_html`. Nothing in this path raises. */
  function RssItem(it: Element): (r: Item)
    ensures StrippedOf(FindText(it, "title"), r.title) && StrippedOf(FindText(it, "link"), r.link)
    ensures r.summary == StripHtml(GetText(it, "description"))
    ensures StrippedOf(FindText(it, "pubDate"), r.published)
  {
    Item(GetText(it, "title"), GetText(it, "link"),
         StripHtml(GetText(it, "description")), GetText(it, "pubDate"))
  }

  /** An Atom `<entry>`: the link is the `href` of the first Atom `<link>`,
      unstripped, or without one the text of a plain `<link>`. An Atom
      `<link>` without `href` yields `None`, which `re.search` rejects
      with a `TypeError`. */
  function AtomEntry(e: Element): (r: Outcome<Item>)
    ensures r.Raised? <==> HrefMissing(e)
    ensures r.Done? && Find(e, Atom("link")).Some? ==> r.value.link == Find(e, Atom("link")).value.attrib["href"]
    ensures r.Done? && Find(e, Atom("link")).None? ==> StrippedOf(FindText(e, "link"), r.value.link)
    ensures r.Done? && GetText(e, Atom("title")) != [] ==> StrippedOf(FindText(e, Atom("title")), r.value.title)
    ensures r.Done? && GetText(e, Atom("title")) == [] ==> StrippedOf(FindText(e, "title"), r.value.title)
    ensures r.Done? && GetText(e, Atom("summary")) != [] ==> r.value.summary == StripHtml(GetText(e, Atom("summary")))
    ensures r.Done? && GetText(e, Atom("summary")) == [] ==> r.value.summary == StripHtml(GetText(e, Atom("content")))
    ensures r.Done? && GetText(e, Atom("updated")) != [] ==> StrippedOf(FindText(e, Atom("updated")), r.value.published)
    ensures r.Done? && GetText(e, Atom("updated")) == [] ==> StrippedOf(FindText(e, Atom("published")), r.value.published)
  {
    var href := match Find(e, Atom("link"))
                case Some(l) => Attr(l, "href")
                case None => Some(GetText(e, "link"));
    match href
    case None => Raised
    case Some(link) =>
      Done(Item(
        Or(GetText(e, Atom("title")), GetText(e, "title")),
        link,
        StripHtml(Or(GetText(e, Atom("summary")), GetText(e, Atom("content")))),
        Or(GetText(e, Atom("updated")), GetText(e, Atom("published")))))
  }

  /** The channel's items of an RSS root. */
  function ChannelItems(root: Element): seq<Element> {
    match Find(root, "channel")
    case Some(ch) => FindAll(ch, "item")
    case None => []
  }

  /** The entries `process_feed` reads: every `<item>` of the channel for an
      RSS root, the Atom entries directly under any other root; `Raised`
      when an Atom entry has a link without `href`. */
  function ParseFeed(root: Element): (r: Outcome<seq<Item>>)
    ensures IsRssRoot(root) ==>
              && r.Done? && |r.value| == |ChannelItems(root)|
              && forall i :: 0 <= i < |r.value| ==> r.value[i] == RssItem(ChannelItems(root)[i])
    ensures !IsRssRoot(root) ==>
              (r.Raised? <==> exists i :: 0 <= i < |FindAll(root, Atom("entry"))| && HrefMissing(FindAll(root, Atom("entry"))[i]))
    ensures !IsRssRoot(root) && r.Done? ==>
              && |r.value| == |FindAll(root, Atom("entry"))|
              && forall i :: 0 <= i < |r.value| ==> AtomEntry(FindAll(root, Atom("entry"))[i]) == Done(r.value[i])
  {
    if IsRssRoot(root) then
      var its := ChannelItems(root);
      Done(seq(|its|, i requires 0 <= i < |its| => RssItem(its[i])))
    else
      MapOutcome(AtomEntry, FindAll(root, Atom("entry")))
  }

  // ---------------------------------------------------------------------
  // build_payload

  /** What the reader cannot compute: the network, the XML decoder, the
      `radar.upsert_tender` call (true when it answers with a status below
      300), whether `SUPABASE_URL` and `SUPABASE_SERVICE_ROLE` are set, and
      the host's UTC offset for naive dates. */
  datatype Env = Env(
    fetch: string -> Response,
    parseXml: seq<byte> -> Option<Element>,
    configured: bool,
    upsert: Payload -> bool,
    localOffset: int)

  predicate ValidEnv(env: Env) {
    -DayMinutes < env.localOffset < DayMinutes
  }

  /** `build_payload(title, link, summary, parse_datetime(pub))`. */
  function BoePayload(it: Item, localOffset: int): (p: Payload)
    requires -DayMinutes < localOffset < DayMinutes
    ensures p.sourceCode == SourceCode && p.url == it.link
    ensures p.externalId == BoeExternalId(it.link) && |p.externalId| <= MaxIdLength
    ensures p.title == Prefix(it.title, 500)
    ensures p.summary == OptionalPrefix(it.summary, 6000)
    ensures p.status == StatusOpen && p.currency == CurrencyEur && p.country == "ES"
    ensures p.published == ParseDatetime(it.published, localOffset)
    ensures p.published.Some? ==> Valid(p.published.value) && p.published.value.offset == Some(0)
  {
    Payload(SourceCode, BoeExternalId(it.link), Prefix(it.title, 500), it.link,
            OptionalPrefix(it.summary, 6000), StatusOpen, CurrencyEur, "ES",
            ParseDatetime(it.published, localOffset))
  }

  /** `supabase_upsert(build_payload(...))` succeeds. */
  predicate Inserts(env: Env, it: Item)
    requires ValidEnv(env)
  {
    env.configured && env.upsert(BoePayload(it, env.localOffset))
  }

  /** Whether each item is inserted, in order. */
  function InsertFlags(env: Env, items: seq<Item>): (r: seq<bool>)
    requires ValidEnv(env)
    ensures |r| == |items| && forall i :: 0 <= i < |items| ==> r[i] == Inserts(env, items[i])
  {
    seq(|items|, i requires 0 <= i < |items| => Inserts(env, items[i]))
  }

  /** Number of items inserted; unlike the CCAA reader, an item without a
      link is sent too. */
  function Inserted(env: Env, items: seq<Item>): (n: nat)
    requires ValidEnv(env)
    ensures n <= |items|
  {
    CountTrue(InsertFlags(env, items))
  }

  /** Every item is counted exactly when each is inserted, none exactly
      when none is. */
  lemma InsertedBounds(env: Env, items: seq<Item>)
    requires ValidEnv(env)
    ensures Inserted(env, items) == |items| <==> forall i :: 0 <= i < |items| ==> Inserts(env, items[i])
    ensures Inserted(env, items) == 0 <==> forall i :: 0 <= i < |items| ==> !Inserts(env, items[i])
  {
    CountTrueAll(InsertFlags(env, items));
    CountTrueNone(InsertFlags(env, items));
  }

  // ---------------------------------------------------------------------
  // process_feed and main

  /** `process_feed(url)`: 0 when nothing usable was fetched or the bytes
      are not XML; `Raised` when an entry's link is `None`; the number of
      inserted entries otherwise. */
  function ProcessFeed(env: Env, url: string): (r: Outcome<nat>)
    requires ValidEnv(env)
    ensures BoeFetch(env.fetch(url)).None? ==> r == Done(0)
    ensures BoeFetch(env.fetch(url)).Some? && env.parseXml(BoeFetch(env.fetch(url)).value).None? ==> r == Done(0)
    ensures BoeFetch(env.fetch(url)).Some? && env.parseXml(BoeFetch(env.fetch(url)).value).Some? ==>
              var parsed := ParseFeed(env.parseXml(BoeFetch(env.fetch(url)).value).value);
              && (r.Raised? <==> parsed.Raised?)
              && (parsed.Done? ==> r == Done(Inserted(env, parsed.value)))
    ensures r.Raised? ==>
              && BoeFetch(env.fetch(url)).Some?
              && env.parseXml(BoeFetch(env.fetch(url)).value).Some?
              && !IsRssRoot(env.parseXml(BoeFetch(env.fetch(url)).value).value)
  {
    match BoeFetch(env.fetch(url))
    case None => Done(0)
    case Some(raw) =>
      match env.parseXml(raw)
      case None => Done(0)
      case Some(root) =>
        match ParseFeed(root)
        case Raised => Raised
        case Done(items) => Done(Inserted(env, items))
  }

  /** What a feed adds to the total: the exception of a feed is caught in
      `main`, and that feed adds nothing. */
  function Contribution(env: Env, url: string): (n: nat)
    requires ValidEnv(env)
    ensures ProcessFeed(env, url).Done? ==> n == ProcessFeed(env, url).value
    ensures ProcessFeed(env, url).Raised? ==> n == 0
  {
    match ProcessFeed(env, url)
    case Done(n) => n
    case Raised => 0
  }

  /** What each feed of the list adds, in order. */
  function Contributions(env: Env, urls: seq<string>): (r: seq<nat>)
    requires ValidEnv(env)
    ensures |r| == |urls| && forall i :: 0 <= i < |urls| ==> r[i] == Contribution(env, urls[i])
  {
    seq(|urls|, i requires 0 <= i < |urls| => Contribution(env, urls[i]))
  }

  /** `main` with `BOE_FEEDS` set to `feeds`: the total over the feed list,
      which is zero exactly when every feed adds nothing; nothing when the
      list is empty. */
  function Run(env: Env, feeds: string): (n: nat)
    requires ValidEnv(env)
    ensures FeedList(feeds) == [] ==> n == 0
    ensures n == Sum(Contributions(env, FeedList(feeds)))
    ensures n == 0 <==> forall i :: 0 <= i < |FeedList(feeds)| ==> Contribution(env, FeedList(feeds)[i]) == 0
  {
    SumZero(Contributions(env, FeedList(feeds)));
    Sum(Contributions(env, FeedList(feeds)))
  }

  /** The total over two lists of feeds read one after the other is the
      sum of their totals. */
  lemma TotalAppend(env: Env, a: seq<string>, b: seq<string>)
    requires ValidEnv(env)
    ensures Sum(Contributions(env, a + b)) == Sum(Contributions(env, a)) + Sum(Contributions(env, b))
  {
    assert Contributions(env, a + b) == Contributions(env, a) + Contributions(env, b);
    SumAppend(Contributions(env, a), Contributions(env, b));
  }

  /** A feed that raises adds nothing, and the feeds after it are still
      read and counted. */
  lemma RaisingFeedSkipped(env: Env, urls: seq<string>)
    requires ValidEnv(env) && urls != [] && ProcessFeed(env, urls[0]).Raised?
    ensures Sum(Contributions(env, urls)) == Sum(Contributions(env, urls[1..]))
  {
    assert Contributions(env, urls)[1..] == Contributions(env, urls[1..]);
  }

  /** Without credentials every upsert is refused, so a run inserts
      nothing. */
  lemma UnconfiguredInsertsNothing(env: Env, feeds: string)
    requires ValidEnv(env) && !env.configured
    ensures Run(env, feeds) == 0
  {
    var urls := FeedList(feeds);
    var counts := Contributions(env, urls);
    forall i | 0 <= i < |urls| ensures counts[i] == 0 {
      FeedUnconfigured(env, urls[i]);
    }
    SumZero(counts);
  }

  lemma FeedUnconfigured(env: Env, url: string)
    requires ValidEnv(env) && !env.configured
    ensures Contribution(env, url) == 0
  {
    match BoeFetch(env.fetch(url))
    case None =>
    case Some(raw) =>
      match env.parseXml(raw)
      case None =>
      case Some(root) =>
        match ParseFeed(root)
        case Raised =>
        case Done(items) =>
          InsertedBounds(env, items);
  }

  /** An RSS feed never raises; an Atom feed raises exactly when one of its
      top-level entries has an Atom `<link>` without `href`. */
  lemma FeedRaises(env: Env, url: string, root: Element)
    requires ValidEnv(env)
    requires BoeFetch(env.fetch(url)).Some? && env.parseXml(BoeFetch(env.fetch(url)).value) == Some(root)
    ensures IsRssRoot(root) ==> ProcessFeed(env, url).Done?
    ensures !IsRssRoot(root) ==>
              (ProcessFeed(env, url).Raised? <==> exists e :: e in FindAll(root, Atom("entry")) && HrefMissing(e))
  {
    FeedRaisesWhenParseRaises(env, url, root);
    if !IsRssRoot(root) {
      AtomRaises(root);
    }
  }

  /** Once the bytes are decoded, the feed raises exactly when parsing
      raises. */
  lemma FeedRaisesWhenParseRaises(env: Env, url: string, root: Element)
    requires ValidEnv(env)
    requires BoeFetch(env.fetch(url)).Some? && env.parseXml(BoeFetch(env.fetch(url)).value) == Some(root)
    ensures ProcessFeed(env, url).Raised? <==> ParseFeed(root).Raised?
  {
  }

  /** The membership form of the Atom raising condition. */
  lemma AtomRaises(root: Element)
    requires !IsRssRoot(root)
    ensures ParseFeed(root).Raised? <==> exists e :: e in FindAll(root, Atom("entry")) && HrefMissing(e)
  {
    assert ParseFeed(root) == MapOutcome(AtomEntry, FindAll(root, Atom("entry")));
    AtomEntriesRaise(FindAll(root, Atom("entry")));
  }

  /** The entry loop raises exactly when some entry lacks its `href`. */
  lemma AtomEntriesRaise(es: seq<Element>)
    ensures MapOutcome(AtomEntry, es).Raised? <==> exists e :: e in es && HrefMissing(e)
  {
    if MapOutcome(AtomEntry, es).Raised? {
      var i :| 0 <= i < |es| && AtomEntry(es[i]).Raised?;
      assert es[i] in es && HrefMissing(es[i]);
    }
    if exists e :: e in es && HrefMissing(e) {
      var e :| e in es && HrefMissing(e);
      var i :| 0 <= i < |es| && es[i] == e;
      assert AtomEntry(es[i]).Raised?;
    }
  }

  // ---------------------------------------------------------------------
  // parse_datetime on the gazette's documented date

  /** The example date of the gazette's RSS feeds. */
  const DocumentedDate: string := "Wed, 10 Sep 2025 00:00:00 +0200"

  /** It is read as an RFC 5322 date at offset +02:00. */
  lemma DocumentedDateFields()
    ensures ParseRfc5322(DocumentedDate) == Some(DateTime(2025, 9, 10, 0, 0, 0, Some(120)))
  {
    DocumentedLayout();
    DocumentedZone();
    DocumentedNumbers();
    var d := RfcFields(DocumentedDate, Some(120));
    assert d == DateTime(2025, 9, 10, 0, 0, 0, Some(120));
    assert MailYear(d.year) == 2025;
  }

  lemma DocumentedLayout()
    ensures RfcLayout(DocumentedDate) && MonthAt(DocumentedDate, 8) == Some(9)
    ensures MailLayout(DocumentedDate)
    ensures NoSpaceFrom(DocumentedDate, 26)
  {
    DocumentedNames();
    DocumentedShape();
  }

  lemma DocumentedNames()
    ensures Word3(DocumentedDate, 0) in DayNames && MonthAt(DocumentedDate, 8) == Some(9)
  {
    assert Word3(DocumentedDate, 0) == "wed";
    assert Word3(DocumentedDate, 8) == "sep";
  }

  lemma DocumentedShape()
    ensures ShapeAt(DocumentedDate, 3, ", 99 ") && ShapeAt(DocumentedDate, 11, " 9999 99:99:99 ")
    ensures NoSpaceFrom(DocumentedDate, 26)
  {
    DocumentedDay();
    DocumentedTime();
    DocumentedZoneToken();
  }

  lemma DocumentedDay()
    ensures ShapeAt(DocumentedDate, 3, ", 99 ")
  {
  }

  lemma DocumentedTime()
    ensures ShapeAt(DocumentedDate, 11, " 9999 99:99:99 ")
  {
    var p := " 9999 99:99:99 ";
    assert ShapeFrom(DocumentedDate, 11, p, 10);
    assert ShapeFrom(DocumentedDate, 11, p, 5);
  }

  lemma DocumentedZoneToken()
    ensures NoSpaceFrom(DocumentedDate, 26)
  {
  }

  lemma DocumentedZone()
    ensures RfcZoneAt(DocumentedDate, 26) == Some(120)
  {
    var s := DocumentedDate;
    assert |UpperAscii(s[26..])| == 5;
    assert NamedZone(UpperAscii(s[26..])).None?;
    assert DigitsFrom(s, 27);
    assert NumAt(s, 27, 4) == 200;
  }

  lemma DocumentedNumbers()
    ensures NumAt(DocumentedDate, 12, 4) == 2025 && NumAt(DocumentedDate, 5, 2) == 10
    ensures NumAt(DocumentedDate, 17, 2) == 0 && NumAt(DocumentedDate, 20, 2) == 0
    ensures NumAt(DocumentedDate, 23, 2) == 0
  {
    DocumentedYear();
  }

  lemma DocumentedYear()
    ensures NumAt(DocumentedDate, 12, 4) == 2025
  {
    assert NumAt(DocumentedDate, 12, 2) == 20;
  }

  /** The documented date is stored as 22:00 UTC of the day before, on any
      host. */
  lemma DocumentedDateInUtc(localOffset: int)
    requires -DayMinutes < localOffset < DayMinutes
    ensures ParseDatetime(DocumentedDate, localOffset) == Some(DateTime(2025, 9, 9, 22, 0, 0, Some(0)))
  {
    StripUnchanged(DocumentedDate);
    DocumentedDateFields();
    DocumentedInstant(localOffset);
    assert RfcUtc(DocumentedDate, localOffset) == Some(DateTime(2025, 9, 9, 22, 0, 0, Some(0)));
  }

  /** Midnight at +02:00 is 22:00 UTC of the day before. */
  lemma DocumentedInstant(localOffset: int)
    requires -DayMinutes < localOffset < DayMinutes
    ensures ToUtc(DateTime(2025, 9, 10, 0, 0, 0, Some(120)), localOffset)
            == Some(DateTime(2025, 9, 9, 22, 0, 0, Some(0)))
  {
  }
}
