/** The storing half shared by the PLACSP and TED readers
    (scraper/scraper_spain_placsp.py:102-127, 160-169 and
    scraper/scraper_radar.py:65-90, 115-124): each selected entry gets an
    id, a date and a payload for `upsert_tender`, whose returned id is then
    passed to `assign_categories_from_keywords`; an entry counts when both
    calls succeed. */
module Tender {
  import opened Common
  import opened Json
  import opened Dates
  import opened Feed
  import opened Identity
  import opened Xml

  /** The two remote procedures. `upsert` yields the tender id (`data[0]`
      for a list answer, the answer itself otherwise), or `None` where the
      call raises: an HTTP error, a body that is not JSON, an empty list.
      `assign` is false where its call raises. */
  datatype Store = Store(upsert: Payload -> Option<Value>, assign: Value -> bool)

  /** The placeholder url of a payload with neither url nor id. */
  const PlaceholderUrl: string := "https://example.com"

  /** `upsert_tender(...)`'s payload. The date is always present: both
      readers fall back to the current time before calling. */
  function TenderPayload(sourceCode: string, externalId: string, title: string, summary: string,
                         url: string, published: DateTime, country: string): (p: Payload)
    ensures p.sourceCode == sourceCode && p.externalId == externalId
    ensures p.title == Prefix(title, 8000)
    ensures p.summary == OptionalPrefix(summary, 8000)
    ensures url != [] ==> p.url == url
    ensures url == [] && externalId != [] ==> p.url == externalId
    ensures url == [] && externalId == [] ==> p.url == PlaceholderUrl
    ensures p.status == StatusOpen && p.currency == CurrencyEur && p.country == country
    ensures p.published == Some(published)
  {
    Payload(sourceCode, externalId, Prefix(title, 8000), Or(Or(url, externalId), PlaceholderUrl),
            OptionalPrefix(summary, 8000), StatusOpen, CurrencyEur, country, Some(published))
  }

  /** The payload built for an item: its id is the link or the synthetic
      id, and the url the link or, failing it, that id. */
  function ItemPayload(sourceCode: string, country: string, it: Item, published: DateTime,
                       hash: string -> int): Payload
  {
    var ext := FallbackId(it.link, it.title, it.summary, hash);
    TenderPayload(sourceCode, ext, it.title, it.summary, it.link, published, country)
  }

  /** The url always equals the external id and is never empty: since the
      id falls back to a non-empty synthetic value, the placeholder url is
      never used. */
  lemma UrlIsExternalId(sourceCode: string, country: string, it: Item, published: DateTime,
                        hash: string -> int)
    ensures ItemPayload(sourceCode, country, it, published, hash).url
              == ItemPayload(sourceCode, country, it, published, hash).externalId
    ensures ItemPayload(sourceCode, country, it, published, hash).url != []
  {
  }

  /** The host's side of a run of either reader: the network, the XML
      decoder, the store, the clock (a naive `utcnow()`), and Python's
      salted string hash. */
  datatype Env = Env(
    fetch: string -> Response,
    parseXml: seq<byte> -> Option<Element>,
    store: Store,
    now: DateTime,
    hash: string -> int)

  /** Both calls succeed for the payload. */
  predicate Saved(store: Store, p: Payload) {
    store.upsert(p).Some? && store.assign(store.upsert(p).value)
  }

  /** What one reader fixes for its storing loop: the store, its source
      code and country, how it dates an entry, and the string hash. */
  datatype Saver = Saver(store: Store, sourceCode: string, country: string,
                         dateOf: string -> DateTime, hash: string -> int)

  /** The payload the reader sends for an item. */
  function PayloadOf(sv: Saver, it: Item): Payload {
    ItemPayload(sv.sourceCode, sv.country, it, sv.dateOf(it.published), sv.hash)
  }

  predicate SavesItem(sv: Saver, it: Item) {
    Saved(sv.store, PayloadOf(sv, it))
  }

  /** Whether each item is saved, in order. */
  function SavedFlags(sv: Saver, items: seq<Item>): (r: seq<bool>)
    ensures |r| == |items| && forall i :: 0 <= i < |items| ==> r[i] == SavesItem(sv, items[i])
  {
    seq(|items|, i requires 0 <= i < |items| => SavesItem(sv, items[i]))
  }

  /** Number of items saved. */
  function SavedCount(sv: Saver, items: seq<Item>): (n: nat)
    ensures n <= |items|
  {
    CountTrue(SavedFlags(sv, items))
  }

  /** All items are counted exactly when each is saved, none exactly when
      none is. */
  lemma SavedCountBounds(sv: Saver, items: seq<Item>)
    ensures SavedCount(sv, items) == |items| <==> forall i :: 0 <= i < |items| ==> SavesItem(sv, items[i])
    ensures SavedCount(sv, items) == 0 <==> forall i :: 0 <= i < |items| ==> !SavesItem(sv, items[i])
  {
    CountTrueAll(SavedFlags(sv, items));
    CountTrueNone(SavedFlags(sv, items));
  }

  /** The upsert loop: every item is dated, identified and sent in order;
      failures are caught and not counted. */
  method SaveAll(sv: Saver, items: seq<Item>) returns (total: nat)
    ensures total == SavedCount(sv, items)
  {
    total := 0;
    var i := 0;
    while i < |items|
      invariant 0 <= i <= |items|
      invariant total == SavedCount(sv, items[..i])
    {
      var tid := sv.store.upsert(PayloadOf(sv, items[i]));
      if tid.Some? && sv.store.assign(tid.value) {
        total := total + 1;
      }
      SavedCountStep(sv, items, i);
      i := i + 1;
    }
    assert items[..i] == items;
  }

  lemma SavedCountStep(sv: Saver, items: seq<Item>, i: nat)
    requires i < |items|
    ensures SavedCount(sv, items[..i + 1]) == SavedCount(sv, items[..i]) + if SavesItem(sv, items[i]) then 1 else 0
  {
    var last := [SavesItem(sv, items[i])];
    assert SavedFlags(sv, items[..i + 1]) == SavedFlags(sv, items[..i]) + last;
    CountTrueAppend(SavedFlags(sv, items[..i]), last);
    assert CountTrue(last) == if SavesItem(sv, items[i]) then 1 else 0;
  }

  /** Counting distributes over concatenation. */
  lemma SavedCountAppend(sv: Saver, a: seq<Item>, b: seq<Item>)
    ensures SavedCount(sv, a + b) == SavedCount(sv, a) + SavedCount(sv, b)
  {
    assert SavedFlags(sv, a + b) == SavedFlags(sv, a) + SavedFlags(sv, b);
    CountTrueAppend(SavedFlags(sv, a), SavedFlags(sv, b));
  }
}
