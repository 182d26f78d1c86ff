/** The generic reader of regional and local procurement feeds
    (scraper/scraper_spain_ccaa.py): each `code|name|type|url` source of
    `CCAA_FEEDS` is fetched, parsed as RSS/Atom or JSON, and every entry
    with a link is sent to `radar.upsert_tender` under the source code
    `ES-<code>`. */
module Ccaa {
  import opened Common
  import opened Xml
  import opened Json
  import opened Html
  import opened Dates
  import opened Feed
  import opened Identity

  // ---------------------------------------------------------------------
  // RSS and Atom

  /** An RSS `<item>`: title, link and date stripped, description through
      `strip_html`. */
  function RssItem(it: Element): (r: Item)
    ensures StrippedOf(FindText(it, "title"), r.title) && StrippedOf(FindText(it, "link"), r.link)
    ensures r.summary == StripHtml(FindText(it, "description"))
    ensures StrippedOf(FindText(it, "pubDate"), r.published)
  {
    Item(Strip(FindText(it, "title")), Strip(FindText(it, "link")),
         StripHtml(FindText(it, "description")), Strip(FindText(it, "pubDate")))
  }

  /** The link of an Atom entry: the `href` of its first Atom `<link>`,
      which raises `AttributeError` (`None.strip()`) when that element has
      no `href`; without an Atom `<link>`, the text of a plain `<link>`. */
  function AtomHref(e: Element): (r: Outcome<string>)
    ensures r.Raised? <==> HrefMissing(e)
    ensures Find(e, Atom("link")).Some? && r.Done? ==> r.value == Find(e, Atom("link")).value.attrib["href"]
    ensures Find(e, Atom("link")).None? ==> r == Done(FindText(e, "link"))
  {
    match Find(e, Atom("link"))
    case Some(l) =>
      (match Attr(l, "href")
       case Some(h) => Done(h)
       case None => Raised)
    case None => Done(FindText(e, "link"))
  }

  /** An Atom `<entry>`: the Atom fields first, the plain ones as fallback
      for the title and the link. */
  function AtomItem(e: Element): (r: Outcome<Item>)
    ensures r.Raised? <==> HrefMissing(e)
    ensures r.Done? ==> StrippedOf(AtomHref(e).value, r.value.link)
    ensures r.Done? ==> StrippedOf(Or(FindText(e, Atom("title")), FindText(e, "title")), r.value.title)
    ensures r.Done? && FindText(e, Atom("summary")) != [] ==> r.value.summary == StripHtml(FindText(e, Atom("summary")))
    ensures r.Done? && FindText(e, Atom("summary")) == [] ==> r.value.summary == StripHtml(FindText(e, Atom("content")))
    ensures r.Done? && FindText(e, Atom("updated")) != [] ==> StrippedOf(FindText(e, Atom("updated")), r.value.published)
    ensures r.Done? && FindText(e, Atom("updated")) == [] ==> StrippedOf(FindText(e, Atom("published")), r.value.published)
  {
    match AtomHref(e)
    case Raised => Raised
    case Done(href) =>
      Done(Item(
        Strip(Or(FindText(e, Atom("title")), FindText(e, "title"))),
        Strip(href),
        StripHtml(Or(FindText(e, Atom("summary")), FindText(e, Atom("content")))),
        Strip(Or(FindText(e, Atom("updated")), FindText(e, Atom("published"))))))
  }

  /** The entries in order, or `Raised` as soon as one of them raises. */
  function AtomItems(es: seq<Element>): Outcome<seq<Item>> {
    MapOutcome(AtomItem, es)
  }

  /** `parse_rss_atom`: nothing when the bytes are not well-formed XML; the
      items of `channel` for an RSS root; the Atom entries directly under
      any other root. */
  function ParseRssAtom(doc: Option<Element>): (r: Outcome<seq<Item>>)
    ensures doc.None? ==> r == Done([])
    ensures doc.Some? && IsRssRoot(doc.value) ==>
              var its := match Find(doc.value, "channel") case Some(ch) => FindAll(ch, "item") case None => [];
              r.Done? && |r.value| == |its| && forall i :: 0 <= i < |its| ==> r.value[i] == RssItem(its[i])
    ensures doc.Some? && !IsRssRoot(doc.value) ==> r == AtomItems(FindAll(doc.value, Atom("entry")))
  {
    match doc
    case None => Done([])
    case Some(root) =>
      if IsRssRoot(root) then
        var its := match Find(root, "channel") case Some(ch) => FindAll(ch, "item") case None => [];
        Done(seq(|its|, i requires 0 <= i < |its| => RssItem(its[i])))
      else AtomItems(FindAll(root, Atom("entry")))
  }

  /** Parsing raises exactly for an Atom document one of whose top-level
      entries has an Atom `<link>` without `href`; every other document
      yields items. */
  lemma ParseRssAtomRaises(doc: Option<Element>)
    ensures ParseRssAtom(doc).Raised? <==>
              && doc.Some? && !IsRssRoot(doc.value)
              && exists e :: e in FindAll(doc.value, Atom("entry")) && HrefMissing(e)
  {
    if doc.Some? && !IsRssRoot(doc.value) {
      AtomItemsRaise(FindAll(doc.value, Atom("entry")));
    }
  }

  lemma AtomItemsRaise(es: seq<Element>)
    ensures AtomItems(es).Raised? <==> exists e :: e in es && HrefMissing(e)
  {
    if AtomItems(es).Raised? {
      var i :| 0 <= i < |es| && AtomItem(es[i]).Raised?;
      assert es[i] in es && HrefMissing(es[i]);
    }
    if exists e :: e in es && HrefMissing(e) {
      var e :| e in es && HrefMissing(e);
      var i :| 0 <= i < |es| && es[i] == e;
      assert AtomItem(es[i]).Raised?;
    }
  }

  // ---------------------------------------------------------------------
  // JSON

  /** The first value of the object that is a non-empty list whose first
      element is an object. */
  function FirstListOfObjects(entries: seq<Member>): (r: Option<seq<Value>>)
    ensures r.None? <==> forall i :: 0 <= i < |entries| ==> !IsListOfObjects(entries[i].val)
    ensures r.Some? ==> exists i :: 0 <= i < |entries| && IsListOfObjects(entries[i].val)
                          && entries[i].val.items == r.value
                          && forall j :: 0 <= j < i ==> !IsListOfObjects(entries[j].val)
  {
    if entries == [] then None
    else if IsListOfObjects(entries[0].val) then Some(entries[0].val.items)
    else
      var r := FirstListOfObjects(entries[1..]);
      if r.Some? then
        var i :| 0 <= i < |entries[1..]| && IsListOfObjects(entries[1..][i].val)
                 && entries[1..][i].val.items == r.value
                 && forall j :: 0 <= j < i ==> !IsListOfObjects(entries[1..][j].val);
        assert IsListOfObjects(entries[i + 1].val);
        r
      else r
  }

  predicate IsListOfObjects(v: Value) {
    v.Arr? && v.items != [] && v.items[0].Obj?
  }

  /** `d[key]` when the key is present and holds a list. */
  function ListUnder(entries: seq<Member>, key: string): (r: Option<seq<Value>>)
    ensures r.Some? <==> Get(entries, key).Some? && Get(entries, key).value.Arr?
    ensures r.Some? ==> Get(entries, key) == Some(Arr(r.value))
  {
    match Get(entries, key)
    case Some(Arr(xs)) => Some(xs)
    case _ => None
  }

  /** The CKAN layout: `d["result"]["records"]` when `result` is an object
      whose `records` is a list. */
  function CkanRecords(entries: seq<Member>): (r: Option<seq<Value>>)
    ensures r.Some? <==> Get(entries, "result").Some? && Get(entries, "result").value.Obj?
                         && ListUnder(Get(entries, "result").value.entries, "records").Some?
    ensures r.Some? ==> r == ListUnder(Get(entries, "result").value.entries, "records")
  {
    match Get(entries, "result")
    case Some(Obj(res)) => ListUnder(res, "records")
    case _ => None
  }

  /** The records of a decoded document: `data` when it is a list (the
      Socrata layout), else `result.records` when it is a list (CKAN),
      else the first list of objects among the values; a top-level list is
      taken as is; anything else has no records. */
  function Records(data: Value): (r: seq<Value>)
    ensures data.Arr? ==> r == data.items
    ensures !data.Arr? && !data.Obj? ==> r == []
    ensures data.Obj? && ListUnder(data.entries, "data").Some? ==> r == ListUnder(data.entries, "data").value
    ensures data.Obj? && ListUnder(data.entries, "data").None? && CkanRecords(data.entries).Some? ==>
              r == CkanRecords(data.entries).value
    ensures data.Obj? && ListUnder(data.entries, "data").None? && CkanRecords(data.entries).None? ==>
              && (FirstListOfObjects(data.entries).Some? ==> r == FirstListOfObjects(data.entries).value)
              && (FirstListOfObjects(data.entries).None? ==> r == [])
    ensures data.Obj? && r != [] ==>
              || (exists i :: 0 <= i < |data.entries| && data.entries[i].val == Arr(r))
              || (Get(data.entries, "result").Some? && Get(data.entries, "result").value.Obj?
                  && Get(Get(data.entries, "result").value.entries, "records") == Some(Arr(r)))
  {
    match data
    case Obj(d) =>
      if ListUnder(d, "data").Some? then ListUnder(d, "data").value
      else if CkanRecords(d).Some? then CkanRecords(d).value
      else
        (match FirstListOfObjects(d)
         case Some(xs) => xs
         case None => [])
    case Arr(xs) => xs
    case _ => []
  }

  /** `str(r.get(k1) or ... or "")`. */
  function FieldText(entries: seq<Member>, keys: seq<string>): (r: string)
    ensures FirstTruthy(entries, keys).None? ==> r == []
    ensures FirstTruthy(entries, keys).Some? ==> r == PyStr(FirstTruthy(entries, keys).value)
  {
    match FirstTruthy(entries, keys)
    case Some(v) => PyStr(v)
    case None => ""
  }

  const TitleKeys: seq<string> := ["title", "titulo", "name", "asunto"]
  const LinkKeys: seq<string> := ["link", "url", "enlace", "uri"]
  const DescriptionKeys: seq<string> := ["description", "descripcion", "detalle"]
  const DateKeys: seq<string> := ["published_at", "fecha", "publication_date", "pubDate", "date"]

  /** One record: only an object has `get`; anything else raises
      `AttributeError`, which nothing catches. Title and link are not
      stripped; the description goes through `strip_html`. */
  function JsonItem(rec: Value): (r: Outcome<Item>)
    ensures r.Raised? <==> !rec.Obj?
    ensures r.Done? ==> r.value.link == FieldText(rec.entries, LinkKeys)
                        && r.value.title == FieldText(rec.entries, TitleKeys)
                        && r.value.summary == StripHtml(FieldText(rec.entries, DescriptionKeys))
                        && r.value.published == FieldText(rec.entries, DateKeys)
  {
    match rec
    case Obj(d) =>
      Done(Item(FieldText(d, TitleKeys), FieldText(d, LinkKeys),
                StripHtml(FieldText(d, DescriptionKeys)), FieldText(d, DateKeys)))
    case _ => Raised
  }

  function JsonItems(recs: seq<Value>): Outcome<seq<Item>> {
    MapOutcome(JsonItem, recs)
  }

  /** `parse_json`: nothing for bytes that do not decode; otherwise one
      item per record. */
  function ParseJson(doc: Option<Value>): (r: Outcome<seq<Item>>)
    ensures doc.None? ==> r == Done([])
    ensures doc.Some? ==> (r.Raised? <==> exists x :: x in Records(doc.value) && !x.Obj?)
    ensures r.Done? && doc.Some? ==> |r.value| == |Records(doc.value)|
    ensures r.Done? && doc.Some? ==>
              forall i :: 0 <= i < |r.value| ==> JsonItem(Records(doc.value)[i]) == Done(r.value[i])
  {
    match doc
    case None => Done([])
    case Some(v) =>
      JsonItemsRaise(Records(v));
      JsonItems(Records(v))
  }

  lemma JsonItemsRaise(recs: seq<Value>)
    ensures JsonItems(recs).Raised? <==> exists x :: x in recs && !x.Obj?
  {
    if JsonItems(recs).Raised? {
      var i :| 0 <= i < |recs| && !recs[i].Obj?;
      assert recs[i] in recs;
    }
  }

  // ---------------------------------------------------------------------
  // Sources

  datatype Kind = RssAtom | JsonFeed

  /** A `code|name|type|url` entry of `CCAA_FEEDS`, each part stripped. */
  datatype Source = Source(code: string, name: string, kind: string, url: string)

  /** `[p.strip() for p in raw.split("|", 3)]` unpacked into four names:
      `None` where unpacking raises `ValueError`, that is when there are
      fewer than four parts. The url keeps any further `|`. */
  function ParseSource(raw: string): (r: Option<Source>)
    ensures r.Some? <==> CountChar(raw, '|') >= 3
    ensures r.Some? ==> var parts := SplitMax(raw, '|', 3);
              |parts| == 4 && r.value == Source(Strip(parts[0]), Strip(parts[1]), Strip(parts[2]), Strip(parts[3]))
  {
    SplitMaxCount(raw, '|', 3);
    var parts := SplitMax(raw, '|', 3);
    if |parts| != 4 then None
    else Some(Source(Strip(parts[0]), Strip(parts[1]), Strip(parts[2]), Strip(parts[3])))
  }

  /** The four parts of a well-formed entry join back into the entry. */
  lemma ParseSourceParts(raw: string)
    requires CountChar(raw, '|') >= 3
    ensures var p := SplitMax(raw, '|', 3);
            |p| == 4 && p[0] + ['|'] + p[1] + ['|'] + p[2] + ['|'] + p[3] == raw
  {
    SplitMaxCount(raw, '|', 3);
    SplitMaxJoin(raw, '|', 3);
    JoinFour(SplitMax(raw, '|', 3), '|');
  }

  /** `str.upper()` of one character, exactly on every character whose
      upper-case form contains an ASCII letter that occurs in `RSS`, `ATOM`
      or `JSON`; any other non-ASCII character is kept, which is as good
      for comparing with those names since its upper-case form is not ASCII
      either. */
  function UpperChar(c: char): (r: string)
    ensures 1 <= |r| <= 2
  {
    if 'a' <= c <= 'z' then [(c as int - 32) as char]
    else if c == '\U{DF}' then "SS"
    else if c == '\U{17F}' then "S"
    else if c == '\U{131}' then "I"
    else [c]
  }

  /** `s.upper()` as the model computes it: only the sharp s grows. */
  function Upper(s: string): (r: string)
    ensures |s| <= |r| <= 2 * |s|
    ensures |r| == |s| <==> forall i :: 0 <= i < |s| ==> s[i] != '\U{DF}'
  {
    if s == [] then [] else UpperChar(s[0]) + Upper(s[1..])
  }

  /** `kind.upper() in ("RSS", "ATOM")` and `kind.upper() == "JSON"`. */
  function KindOf(kind: string): (r: Option<Kind>)
    ensures r == Some(RssAtom) <==> Upper(kind) == "RSS" || Upper(kind) == "ATOM"
    ensures r == Some(JsonFeed) <==> Upper(kind) == "JSON"
  {
    var u := Upper(kind);
    if u == "RSS" || u == "ATOM" then Some(RssAtom)
    else if u == "JSON" then Some(JsonFeed)
    else None
  }

  /** On ASCII text the upper-casing is the ASCII one. */
  lemma {:induction false} UpperAsciiAgrees(s: string)
    requires forall i :: 0 <= i < |s| ==> s[i] < '\U{80}'
    ensures Upper(s) == UpperAscii(s)
  {
    if s != [] {
      UpperAsciiAgrees(s[1..]);
      assert UpperAscii(s) == [UpperAscii(s)[0]] + UpperAscii(s[1..]);
    }
  }

  /** The type test ignores case, including the German sharp s. */
  lemma KindExamples()
    ensures KindOf("rss") == Some(RssAtom) && KindOf("Atom") == Some(RssAtom)
    ensures KindOf("json") == Some(JsonFeed)
  {
    assert Upper("rss") == "RSS";
    assert Upper("Atom") == "ATOM";
    assert Upper("json") == "JSON";
  }

  /** An ASCII kind selects no parser exactly when its upper-cased form is
      none of the three names. */
  lemma UnknownKind(kind: string)
    requires forall i :: 0 <= i < |kind| ==> kind[i] < '\U{80}'
    ensures KindOf(kind).None? <==>
              UpperAscii(kind) != "RSS" && UpperAscii(kind) != "ATOM" && UpperAscii(kind) != "JSON"
  {
    UpperAsciiAgrees(kind);
  }

  /** `"r\u00df".upper()` is `"RSS"`, so that kind selects the XML parser. */
  lemma SharpSKind()
    ensures KindOf("r\U{DF}") == Some(RssAtom)
  {
    assert Upper("r\U{DF}") == "RSS";
  }

  // ---------------------------------------------------------------------
  // Payload and run

  /** What the reader cannot compute: the network, the two decoders, the
      `radar.upsert_tender` call (true when it answers with a status below
      300), whether `SUPABASE_URL` and `SUPABASE_SERVICE_ROLE` are set, and
      the UTC offset of the host, which `astimezone` applies to naive
      dates. */
  datatype Env = Env(
    fetch: string -> Response,
    parseXml: seq<byte> -> Option<Element>,
    parseJson: seq<byte> -> Option<Value>,
    configured: bool,
    upsert: Payload -> bool,
    localOffset: int)

  predicate ValidEnv(env: Env) {
    -DayMinutes < env.localOffset < DayMinutes
  }

  /** `payload(source_code, t, l, s, p)`. */
  function CcaaPayload(sourceCode: string, it: Item, localOffset: int): (p: Payload)
    requires -DayMinutes < localOffset < DayMinutes
    ensures p.sourceCode == sourceCode && p.url == it.link
    ensures p.externalId == CcaaExternalId(it.link) && |p.externalId| <= MaxIdLength
    ensures |p.title| <= 500 && p.title == Prefix(it.title, 500)
    ensures p.summary == OptionalPrefix(it.summary, 6000)
    ensures p.status == StatusOpen && p.currency == CurrencyEur && p.country == "ES"
    ensures p.published.Some? ==> Valid(p.published.value) && p.published.value.offset == Some(0)
    ensures p.published == ParseDatetime(it.published, localOffset)
  {
    Payload(sourceCode, CcaaExternalId(it.link), Prefix(it.title, 500), it.link,
            OptionalPrefix(it.summary, 6000), StatusOpen, CurrencyEur, "ES",
            ParseDatetime(it.published, localOffset))
  }

  /** `supabase_upsert`: refused without credentials. */
  predicate Stored(env: Env, p: Payload) {
    env.configured && env.upsert(p)
  }

  /** The item is sent (it has a link) and the store accepts it. */
  predicate Inserts(env: Env, code: string, it: Item)
    requires ValidEnv(env)
  {
    it.link != [] && Stored(env, CcaaPayload(code, it, env.localOffset))
  }

  /** Number of items inserted from one source. */
  function Inserted(env: Env, code: string, items: seq<Item>): (n: nat)
    requires ValidEnv(env)
    ensures n <= |items|
    ensures n <= |LinkedItems(items)|
    ensures n == |items| <==> forall i :: 0 <= i < |items| ==> Inserts(env, code, items[i])
  {
    if items == [] then 0
    else
      var rest := Inserted(env, code, items[1..]);
      assert forall i :: 1 <= i < |items| ==> items[i] == items[1..][i - 1];
      (if Inserts(env, code, items[0]) then 1 else 0) + rest
  }

  /** The items that have a link. */
  function LinkedItems(items: seq<Item>): (r: seq<Item>)
    ensures |r| <= |items|
    ensures forall x :: x in r ==> x in items && x.link != []
  {
    if items == [] then []
    else (if items[0].link != [] then [items[0]] else []) + LinkedItems(items[1..])
  }

  /** The insertion loop of `main` for one source. */
  method InsertItems(env: Env, code: string, items: seq<Item>) returns (inserted: nat)
    requires ValidEnv(env)
    ensures inserted == Inserted(env, code, items)
  {
    inserted := 0;
    var i := |items|;
    while i > 0
      invariant 0 <= i <= |items|
      invariant inserted == Inserted(env, code, items[i..])
    {
      i := i - 1;
      assert items[i..][1..] == items[i + 1..];
      if Inserts(env, code, items[i]) {
        inserted := inserted + 1;
      }
    }
  }

  /** The parser the type selects, applied to the fetched bytes. */
  function ParseContent(env: Env, kind: Kind, content: seq<byte>): Outcome<seq<Item>> {
    match kind
    case RssAtom => ParseRssAtom(env.parseXml(content))
    case JsonFeed => ParseJson(env.parseJson(content))
  }

  /** One source: `Raised` when its parser lets an exception escape, the
      number of inserted items otherwise (0 when the fetch fails or the
      type is unknown). The items are stored under `ES-` and the code. */
  function ProcessSource(env: Env, src: Source): (r: Outcome<nat>)
    requires ValidEnv(env)
    ensures LenientFetch(env.fetch(src.url)).None? || KindOf(src.kind).None? ==> r == Done(0)
    ensures LenientFetch(env.fetch(src.url)).Some? && KindOf(src.kind).Some? ==>
              var parsed := ParseContent(env, KindOf(src.kind).value, LenientFetch(env.fetch(src.url)).value);
              && (r.Raised? <==> parsed.Raised?)
              && (parsed.Done? ==> r == Done(Inserted(env, "ES-" + src.code, parsed.value)))
  {
    match LenientFetch(env.fetch(src.url))
    case None => Done(0)
    case Some(content) =>
      match KindOf(src.kind)
      case None => Done(0)
      case Some(kind) =>
        match ParseContent(env, kind, content)
        case Raised => Raised
        case Done(items) => Done(Inserted(env, "ES-" + src.code, items))
  }

  /** What one comma-separated entry does: nothing for a blank or
      malformed entry, its source's outcome otherwise. */
  function EntryOutcome(env: Env, raw: string): Outcome<nat>
    requires ValidEnv(env)
  {
    match SourceOf(raw)
    case Some(src) => ProcessSource(env, src)
    case None => Done(0)
  }

  /** The outcome of each entry, in order. */
  function Outcomes(env: Env, raws: seq<string>): (r: seq<Outcome<nat>>)
    requires ValidEnv(env)
    ensures |r| == |raws| && forall i :: 0 <= i < |raws| ==> r[i] == EntryOutcome(env, raws[i])
  {
    seq(|raws|, i requires 0 <= i < |raws| => EntryOutcome(env, raws[i]))
  }

  /** What each entry adds to the total when it finishes. */
  function EntryCounts(env: Env, raws: seq<string>): (r: seq<nat>)
    requires ValidEnv(env)
    ensures |r| == |raws|
    ensures forall i :: 0 <= i < |raws| && EntryOutcome(env, raws[i]).Done? ==> r[i] == EntryOutcome(env, raws[i]).value
  {
    DoneValues(Outcomes(env, raws))
  }

  /** The loop of `main` over the comma-separated entries: blank entries and
      entries with fewer than four fields are skipped; an exception from a
      source ends the run, and otherwise the total is the sum of what each
      entry inserted. */
  function RunEntries(env: Env, raws: seq<string>): (r: Outcome<nat>)
    requires ValidEnv(env)
    ensures r.Raised? <==> exists i :: 0 <= i < |raws| && EntryOutcome(env, raws[i]).Raised?
    ensures r.Done? ==> r.value == Sum(EntryCounts(env, raws))
  {
    SumOutcomes(Outcomes(env, raws))
  }

  /** A blank entry, or one with fewer than three `|`, adds nothing and
      does not stop the run. */
  lemma MalformedEntrySkipped(env: Env, raws: seq<string>)
    requires ValidEnv(env) && raws != []
    requires Strip(raws[0]) == [] || CountChar(Strip(raws[0]), '|') < 3
    ensures RunEntries(env, raws) == RunEntries(env, raws[1..])
  {
    assert SourceOf(raws[0]).None?;
    var xs := Outcomes(env, raws);
    assert xs[1..] == Outcomes(env, raws[1..]);
    SumOutcomesSkip(xs);
  }

  /** The source an entry describes, once stripped. */
  function SourceOf(raw: string): Option<Source> {
    var s := Strip(raw);
    if s == [] then None else ParseSource(s)
  }

  /** `main`: the total number of inserted tenders, or `Raised` when an
      exception escapes it. The early return on a blank `CCAA_FEEDS` gives
      what the loop would: every entry of such a list is blank. */
  function Run(env: Env, feedsRaw: string): (r: Outcome<nat>)
    requires ValidEnv(env)
    ensures Strip(feedsRaw) == [] ==> r == Done(0)
    ensures r == RunEntries(env, Split(feedsRaw, ','))
  {
    if Strip(feedsRaw) == [] then
      BlankListRunsNothing(env, feedsRaw);
      Done(0)
    else RunEntries(env, Split(feedsRaw, ','))
  }

  /** Every entry of a blank list is blank, so the loop over it inserts
      nothing. */
  lemma BlankListRunsNothing(env: Env, feedsRaw: string)
    requires ValidEnv(env) && Strip(feedsRaw) == []
    ensures RunEntries(env, Split(feedsRaw, ',')) == Done(0)
  {
    var i :| 0 <= i <= |feedsRaw| && StrippedAt(feedsRaw, [], i);
    assert forall k :: 0 <= k < |feedsRaw| ==> IsSpace(feedsRaw[k]);
    var parts := Split(feedsRaw, ',');
    var xs := Outcomes(env, parts);
    forall j | 0 <= j < |xs| ensures xs[j] == Done(0) {
      SplitOfSpaces(feedsRaw, ',', j);
      SpacesStripToEmpty(parts[j]);
    }
    SumOutcomesAllZero(xs);
  }

  /** Without credentials nothing is inserted: every source that finishes
      contributes 0. */
  lemma UnconfiguredInsertsNothing(env: Env, raws: seq<string>)
    requires ValidEnv(env) && !env.configured
    ensures RunEntries(env, raws).Done? ==> RunEntries(env, raws).value == 0
  {
    if RunEntries(env, raws).Done? {
      var counts := EntryCounts(env, raws);
      forall i | 0 <= i < |raws| ensures counts[i] == 0 {
        if SourceOf(raws[i]).Some? {
          SourceUnconfigured(env, SourceOf(raws[i]).value);
        }
      }
      SumZero(counts);
    }
  }

  lemma SourceUnconfigured(env: Env, src: Source)
    requires ValidEnv(env) && !env.configured
    ensures ProcessSource(env, src).Done? ==> ProcessSource(env, src).value == 0
  {
    var r := ProcessSource(env, src);
    if r.Done? && LenientFetch(env.fetch(src.url)).Some? && KindOf(src.kind).Some? {
      var parsed := ParseContent(env, KindOf(src.kind).value, LenientFetch(env.fetch(src.url)).value);
      InsertedUnconfigured(env, "ES-" + src.code, parsed.value);
    }
  }

  lemma {:induction false} InsertedUnconfigured(env: Env, code: string, items: seq<Item>)
    requires ValidEnv(env) && !env.configured
    ensures Inserted(env, code, items) == 0
  {
    if items != [] {
      InsertedUnconfigured(env, code, items[1..]);
    }
  }
}
