# Feed normalisation of the tender radar scrapers

The radar collects public-procurement notices from four sources. Each
source has its own Python reader under `scraper/`:

- `scraper_spain_ccaa.py` reads regional and local feeds (RSS, Atom or
  JSON) listed in `CCAA_FEEDS`;
- `scraper_spain_placsp.py` reads the national platform's RSS/Atom feeds
  listed in `PLACSP_FEEDS`;
- `scraper_spain_boe.py` reads the official gazette's RSS/Atom feeds
  listed in `BOE_FEEDS`;
- `scraper_radar.py` reads the TED Atom feed.

Each reader fetches a feed, decodes it, extracts items, optionally filters
them by technology keywords, derives an external id and a date, and sends
one payload per item to the store, counting what succeeds.

This project models that pipeline as pure Dafny functions over an abstract
element tree, an abstract JSON value and strings, and proves what each step
promises. It covers bounds, precedence orders, order preservation, the
error-to-empty conventions, and which Python exceptions escape.

Modules, one per file:

| module | file | what it holds |
|---|---|---|
| `Common` | common.dfy | `Option`, `Outcome` (a value or an escaped exception), `str.strip`, slicing, `split`/`join`, `replace`, `str(n)`, sums and counts |
| `Xml` | xml.dfy | ElementTree's `find`, `findtext`, `findall("./t")`, `findall(".//t")`, `attrib.get` |
| `Json` | json.dfy | decoded JSON values, `dict.get`, Python truthiness, `str()` |
| `Html` | html.dfy | `strip_html` |
| `Dates` | dates.dfy | the calendar, `astimezone(timezone.utc)`, the `strptime` layouts, RFC 5322 and ISO 8601 readers, `parse_datetime` |
| `Keywords` | keywords.dfy | the `KEYWORDS` regular expressions and the relevance filter |
| `Identity` | identity.dfy | external-id derivation of each reader |
| `Feed` | feed.dfy | items, payloads, fetch acceptance, the comma-separated feed list |
| `Tender` | tender.dfy | `upsert_tender` and the storing loop shared by PLACSP and TED |
| `Ccaa`, `Placsp`, `Boe`, `Radar` | ccaa.dfy, placsp.dfy, boe.dfy, radar.dfy | the four readers |

The host's side is passed in as parameters. Each reader receives an `Env`
value holding:

- the HTTP response per url;
- the XML and JSON decoders, as `bytes -> Option<tree>`;
- the store's answers;
- whether credentials are configured;
- the clock;
- the host's local UTC offset;
- Python's per-process string hash.

Where a Python exception escapes a function, the model returns `Raised`:

- a CCAA Atom `<link>` without `href` raises `AttributeError`, which ends
  the whole run;
- a CCAA JSON record that is not an object raises `AttributeError`,
  which also ends the run;
- a BOE Atom `<link>` without `href` raises `TypeError` in `re.search`,
  which `main` catches, so only that feed's count is lost.

Where the code and its own comments or docstrings differ, the model follows
the code:

- the PLACSP Atom link is not stripped, unlike the other fields;
- the CCAA id pattern `\d{6,}` also accepts non-ASCII decimal digits;
- the TED date is not stripped before parsing;
- the PLACSP and TED placeholder url `https://example.com` can never be
  used, because the external id is never empty (`Tender.UrlIsExternalId`).

## Model

| member | source | states |
|---|---|---|
| Common.MapOutcome | scraper/scraper_spain_ccaa.py:145-153 | a loop over elements raises exactly when some element's step raises; otherwise it yields one result per element, in order |
| Common.Lower | scraper/scraper_spain_placsp.py:8 | ASCII lower-casing: same length, each ASCII capital becomes its small letter and every other character is kept; this decides `STRICT_FILTER`'s `== "true"` and the `rss` suffix test on the root tag as `str.lower()` does |
| Common.Or | scraper/scraper_spain_ccaa.py:149-152 | `a or b` on strings is empty exactly when both are, is `a` when `a` is non-empty, and is `b` otherwise |
| Common.Strip | scraper/scraper_spain_ccaa.py:137-140 | `str.strip()` is a slice of its input with only whitespace cut on each side, and it neither starts nor ends with whitespace; `Common.StripUnique` shows this pins the result |
| Common.StripUnchanged | scraper/scraper_spain_ccaa.py:137-140 | text that does not start or end with whitespace is left as it is |
| Common.StripUnique | scraper/scraper_spain_ccaa.py:137-140 | two strings that both satisfy the stripping characterisation of one input are equal |
| Common.Prefix | scraper/scraper_spain_ccaa.py:109-110 | `s[:n]` has length `min(n, len(s))` and is the front of `s` |
| Common.SubsequencePrefix | scraper/scraper_radar.py:115 | cutting the front of an order-preserving selection keeps it order-preserving |
| Common.PySlicePrefix | scraper/scraper_spain_placsp.py:160 | `s[:n]` for any integer `n`, where a negative `n` counts from the end |
| Common.SplitJoin | scraper/scraper_spain_ccaa.py:207 | joining the parts of `split(",")` on the separator gives back the input, so splitting loses nothing |
| Common.SplitCount | scraper/scraper_spain_ccaa.py:207 | `split(sep)` yields one more part than there are separators |
| Common.SplitMaxCount | scraper/scraper_spain_ccaa.py:212-215 | splitting an entry at most three times on the vertical bar yields four parts exactly when the entry holds at least three bars |
| Common.SplitMaxJoin | scraper/scraper_spain_ccaa.py:212 | joining the parts of the three-fold split on the vertical bar gives back the entry, so any further bar stays in the last part |
| Common.Replace | scraper/scraper_spain_placsp.py:84 | after `replace("Z", r)`, no `Z` remains when `r` has none, and text without `Z` is unchanged |
| Common.ReplaceAppend | scraper/scraper_radar.py:60-62 | `replace` acts on the two halves of a concatenation separately |
| Common.DecimalRoundTrip | scraper/scraper_spain_placsp.py:162 | `str(n)` of a natural number reads back in base ten as `n` |
| Common.DecimalLength | scraper/scraper_spain_placsp.py:162 | a number below `10**k` prints with at most `k` digits |
| Common.Decimal | scraper/scraper_spain_placsp.py:162 | `str(n)` of a natural number is a non-empty run of ASCII digits; `Common.DecimalRoundTrip` shows that it reads back as `n` |
| Common.Split | scraper/scraper_spain_ccaa.py:207 | `split(sep)` yields at least one part and no part holds the separator; with `Common.SplitJoin` and `Common.SplitCount` this fixes the parts |
| Common.SplitMax | scraper/scraper_spain_ccaa.py:212 | `split(sep, n)` yields between one and `n + 1` parts; `Common.SplitMaxJoin` shows that they join back to the input |
| Common.IsSpace | scraper/scraper_spain_ccaa.py:67 | the whitespace of `\s` and `strip()`: space, tab, line feed, carriage return, vertical tab, form feed, U+001C to U+001F, U+0085, U+00A0, U+1680, U+2000 to U+200A, U+2028, U+2029, U+202F, U+205F and U+3000 |
| Common.SumOutcomes | scraper/scraper_spain_ccaa.py:206-244 | a loop in which an exception escapes raises exactly when one step raises, and otherwise totals the steps' values |
| Common.SumAppend | scraper/scraper_spain_boe.py:179-182 | a total over two lists read one after the other is the sum of their totals |
| Xml.FirstWithTag | scraper/scraper_spain_ccaa.py:133 | `find` yields nothing exactly when no child carries the tag, and otherwise the first child that does |
| Xml.FindText | scraper/scraper_spain_ccaa.py:137 | `findtext(t) or ""` is `""` without such a child and otherwise that child's text |
| Xml.WithTag | scraper/scraper_spain_ccaa.py:134 | `findall("./t")` returns exactly the children carrying `t`, and no others |
| Xml.WithTagAppend | scraper/scraper_spain_ccaa.py:144 | selecting by tag works on each half of a list separately, so it keeps document order |
| Xml.ChildrenAreDescendants | scraper/scraper_spain_placsp.py:50 | every child is among the elements `.//` visits |
| Xml.ShallowWithinDeep | scraper/scraper_spain_placsp.py:61 | whatever `findall("./t")` finds, `findall(".//t")` also finds |
| Xml.Attr | scraper/scraper_spain_ccaa.py:147 | `attrib.get(name)` is present exactly when the attribute is, and is then its value |
| Xml.Href | scraper/scraper_spain_placsp.py:63-64 | the link is the first link child's `href`, and `""` when that child or its `href` is missing |
| Json.Get | scraper/scraper_spain_ccaa.py:165 | `d.get(k)` is absent exactly when no entry has key `k`; otherwise it is the value of an entry with that key |
| Json.FirstTruthy | scraper/scraper_spain_ccaa.py:186-189 | an `or` chain of `get`s yields the value of the first key whose value is truthy, and nothing exactly when no key's value is truthy |
| Json.IntText | scraper/scraper_spain_ccaa.py:194 | `str()` of an integer is its decimal digits, with a leading `-` when negative |
| Json.IntTextRoundTrip | scraper/scraper_spain_ccaa.py:194 | `str()` of a non-negative integer field reads back as that integer |
| Json.PyStr | scraper/scraper_spain_ccaa.py:186-188 | `str(v)` is empty exactly when `v` is the empty string, and a string is returned as it is |
| Json.PyStrOfTruthy | scraper/scraper_spain_ccaa.py:186-188 | `str()` of a truthy field is never empty, and a string field is kept as it is |
| Html.Unescape | scraper/scraper_spain_ccaa.py:64 | text without `&` is unchanged; `Html.AmpersandDecoded` and `Html.EscapedTagDropped` show what a reference becomes |
| Html.BrTagLen | scraper/scraper_spain_ccaa.py:65 | a match of `<br\s*/?>`, in any case, is at least four characters long, starts with `<`, ends with `>` and holds no `>` before its end |
| Html.ReplaceBr | scraper/scraper_spain_ccaa.py:65 | text without `<` holds no `<br>` and is unchanged |
| Html.BrReplacedOnce | scraper/scraper_spain_ccaa.py:65 | the substitution is one left-to-right pass: in `<br<br>>` only the inner `<br>` is replaced, and the `<br` + newline + `>` that this forms is left for the tag pass |
| Html.TagLen | scraper/scraper_spain_ccaa.py:66 | a match of `<[^>]+>` starts with `<` and ends at the first `>`, with at least one character between |
| Html.NoTagAt | scraper/scraper_spain_ccaa.py:66 | where `<[^>]+>` does not match, the text does not start with `<`, or `>` follows the `<` at once, or no `>` follows at all |
| Html.NoTagFront | scraper/scraper_spain_ccaa.py:66 | conversely, each of those three cases leaves no match |
| Html.ReplaceTags | scraper/scraper_spain_ccaa.py:66 | the result holds no tag anywhere; text without `<`, or without `>`, is unchanged; a first character other than `<` is kept |
| Html.Collapse | scraper/scraper_spain_ccaa.py:67 | `re.sub(r"\s+", " ")` leaves no two adjacent whitespace characters and only plain spaces, keeps every non-space character in order, keeps a leading non-space character and turns leading whitespace into one space |
| Html.CollapseRun | scraper/scraper_spain_ccaa.py:67 | a whitespace run between two non-space characters becomes exactly one space, and the text on either side collapses on its own |
| Html.CollapseAppend | scraper/scraper_spain_ccaa.py:67 | two texts that do not meet in whitespace collapse separately |
| Html.CollapseNoSpace | scraper/scraper_spain_ccaa.py:67 | text without whitespace is unchanged |
| Html.CollapseSameSpacing | scraper/scraper_spain_ccaa.py:67 | the result depends only on where the whitespace is, not on which whitespace characters they are |
| Html.CollapseTagFree | scraper/scraper_spain_ccaa.py:66-67 | collapsing whitespace cannot create a tag |
| Html.StripHtml | scraper/scraper_spain_ccaa.py:63-68 | the cleaned text has no whitespace at either end, no two adjacent whitespace characters, only plain spaces, no newline, and no tag anywhere |
| Html.NoBrLeft | scraper/scraper_spain_ccaa.py:63-68 | no `<br>` is left anywhere in the cleaned text |
| Html.TagBecomesSpace | scraper/scraper_spain_ccaa.py:63-68 | a tag between two pieces of plain text is cleaned as one space there would be, whether it is a `<br>` or another tag |
| Html.AmpersandDecoded | scraper/scraper_spain_ccaa.py:63-68 | `&amp;` in plain text comes out as `&` |
| Html.EscapedTagDropped | scraper/scraper_spain_ccaa.py:63-68 | an escaped tag `&lt;...&gt;` is decoded first and then removed like a real one |
| Html.StripKeepsSpacing | scraper/scraper_spain_boe.py:70-71 | trimming collapsed text keeps it collapsed, so the newline a `<br>` became cannot survive |
| Html.StripKeepsNonSpace | scraper/scraper_spain_ccaa.py:68 | `strip()` removes only whitespace: the non-space characters are unchanged |
| Html.PlainTextKept | scraper/scraper_spain_boe.py:66-71 | on text with no markup and no entity reference, cleaning only collapses and trims the whitespace, and every other character is kept in order |
| Dates.ToUtc | scraper/scraper_spain_ccaa.py:54 | `astimezone(timezone.utc)` gives the same instant at offset 0, reading a naive value with the host's offset, and fails only when the result leaves years 1..9999 |
| Dates.NextDay | scraper/scraper_spain_ccaa.py:54 | the next calendar day is a valid date exactly one day later |
| Dates.PrevDay | scraper/scraper_spain_ccaa.py:54 | the previous calendar day is a valid date exactly one day earlier |
| Dates.Checked | scraper/scraper_spain_placsp.py:94 | the `datetime` constructor succeeds exactly on valid fields and keeps them |
| Dates.StrpRfc | scraper/scraper_spain_placsp.py:86 | a `%a, %d %b %Y %H:%M:%S %z` match is a valid, zone-aware datetime |
| Dates.StrpSlash | scraper/scraper_spain_placsp.py:87 | a `%d/%m/%Y %H:%M` match is a valid naive datetime |
| Dates.StrpIsoZoned | scraper/scraper_spain_placsp.py:88 | a `%Y-%m-%dT%H:%M:%S%z` match is a valid, zone-aware datetime |
| Dates.StrpIsoNaive | scraper/scraper_spain_placsp.py:89 | a `%Y-%m-%dT%H:%M:%S` match is a valid naive datetime |
| Dates.StrpDate | scraper/scraper_spain_placsp.py:90 | a `%Y-%m-%d` match is a valid naive datetime |
| Dates.MonthAt | scraper/scraper_spain_boe.py:47 | three letters are recognised exactly when they are one of the twelve month abbreviations, in any case, and then name that month, 1..12 |
| Dates.ParseRfc5322 | scraper/scraper_spain_boe.py:50 | an RFC 5322 date that is read is a valid datetime with a year of at least 100 |
| Dates.RfcYearWindow | scraper/scraper_spain_boe.py:50 | a written year below 100 keeps its last two digits and lands in 1969..2068, as `parsedate_to_datetime` maps 0..68 to 2000..2068 and 69..99 to 1969..1999; any other year is kept |
| Dates.ParseIso | scraper/scraper_spain_boe.py:56 | a `fromisoformat` result is a valid datetime |
| Dates.UtcSuffixStrp | scraper/scraper_radar.py:59-60 | a `...T..:..:..` stamp with `+0000` appended reads as the naive reading of the stamp at offset 0, and fails exactly when that reading fails |
| Dates.UtcSuffixIso | scraper/scraper_radar.py:62 | the same stamp with `+00:00` appended reads the same way under `fromisoformat` |
| Dates.ParseDatetime | scraper/scraper_spain_ccaa.py:46-61 | empty text gives `None`; a result is always valid and at offset 0; the RFC 5322 reading wins when it converts; a result is the same instant as the RFC 5322 or the ISO reading; `None` only when both readings fail or cannot be converted |
| Keywords.Fold | scraper/scraper_spain_placsp.py:34 | under `re.I` no ASCII capital survives folding, small letters, digits and `_` are kept, a non-ASCII character folds onto an ASCII letter only for `İ`, `ı`, `ſ` and the Kelvin sign, and apart from the Kelvin sign folding never changes whether a character is a word character |
| Keywords.IsWordChar | scraper/scraper_spain_placsp.py:34 | the word characters that `\b` tests are never whitespace |
| Keywords.AnyAt | scraper/scraper_spain_placsp.py:29-35 | the alternation matches at a position exactly when one of its alternatives does |
| Keywords.FoundFrom | scraper/scraper_spain_placsp.py:155 | the scan from a position finds a match exactly when one starts at or after that position |
| Keywords.Search | scraper/scraper_spain_placsp.py:155 | `KEYWORDS.search(text)` is truthy exactly when some alternative occurs, case-insensitively, followed by a word boundary |
| Keywords.ScanCoversRelevant | scraper/scraper_radar.py:112 | scanning positions `0..len(text)` misses no match |
| Keywords.KeepRelevant | scraper/scraper_radar.py:109-113 | the filtered list holds exactly the relevant items of the feed, and no others |
| Keywords.KeepRelevantIsSubsequence | scraper/scraper_radar.py:109-113 | the filter keeps feed order: its result is a subsequence of the items |
| Keywords.FrontOfRelevant | scraper/scraper_radar.py:109-115 | the first `cap` relevant items keep feed order, and contain every relevant item with fewer than `cap` relevant items before it |
| Keywords.RelevantAtIndex | scraper/scraper_radar.py:109-113 | a relevant item sits in the filtered list at the index given by the number of relevant items before it |
| Keywords.KeepRelevantAppend | scraper/scraper_spain_placsp.py:149-156 | filtering a concatenation filters each part |
| Keywords.Filter | scraper/scraper_spain_placsp.py:149-156 | with the strict toggle off the list is unchanged; with it on, an item is kept exactly when its `title\nsummary` is relevant |
| Identity.RunLen | scraper/scraper_spain_boe.py:113 | a greedy `[...]+` consumes only characters of its class and stops at the first one outside it |
| Identity.CcaaMatchLen | scraper/scraper_spain_ccaa.py:104 | the pattern matches at a position exactly when a run of six ASCII letters or digits, or of six decimal digits, starts there; the match is the whole ASCII run when that run has six characters, and otherwise the whole run of decimal digits |
| Identity.CcaaSearchFrom | scraper/scraper_spain_ccaa.py:104 | `re.search` returns the leftmost position where the pattern matches, and nothing when it matches nowhere |
| Identity.CcaaMatchWhereSixRun | scraper/scraper_spain_ccaa.py:104 | the pattern matches at a position exactly when six characters of one class start there |
| Identity.CcaaIdLeftmost | scraper/scraper_spain_ccaa.py:104-106 | a match is found exactly when the link has a six-character run, and it is the leftmost such run |
| Identity.CcaaExternalId | scraper/scraper_spain_ccaa.py:103-109 | the id has at most 120 characters; without a six-character run it is the link cut to 120; otherwise it is the whole run at the leftmost match, ASCII letters and digits first and decimal digits otherwise, at least six long and cut only at 120 |
| Identity.IdRunUnique | scraper/scraper_spain_ccaa.py:104-109 | at most one string is the run of a class at a position cut to 120, so the id contracts pin the id |
| Identity.CcaaMatchIsIdRun | scraper/scraper_spain_ccaa.py:104-109 | the slice a positive match covers, cut to 120, is a six-character run and the run of its class at that position |
| Identity.BoeSearchFrom | scraper/scraper_spain_boe.py:113 | the search finds the leftmost `id=` followed by an id character, and nothing when there is none |
| Identity.BoeExternalId | scraper/scraper_spain_boe.py:111-118 | the id has at most 120 characters; without an `id=` parameter it is the link cut to 120; otherwise it is the non-empty run of `[A-Za-z0-9._-]` right after the first `id=`, maximal unless cut at 120 |
| Identity.HashDigits | scraper/scraper_spain_placsp.py:162 | `str(abs(h) % 10**8)` has between one and eight digits |
| Identity.FallbackId | scraper/scraper_radar.py:117 | the id is the link when there is one; otherwise it is non-empty, at most 40 characters, and starts with `title[:32]` |
| Identity.SyntheticIdHash | scraper/scraper_spain_placsp.py:162 | the digits after the title part read back as `abs(hash(title + summary)) % 10**8`, so equal title and summary give equal ids within one run |
| Feed.OptionalPrefix | scraper/scraper_spain_ccaa.py:112 | `(s or "")[:n] or None` is `None` exactly when the text is empty, and otherwise its first `n` characters |
| Feed.LenientFetch | scraper/scraper_spain_ccaa.py:70-79 | a body is returned exactly when the request did not raise, the status is below 400 and the body is not empty, and then it is unchanged |
| Feed.StrictFetch | scraper/scraper_spain_placsp.py:38-41 | `raise_for_status` lets a body through exactly when the request did not raise and the status is not in 400..599, and then it is unchanged |
| Feed.FeedList | scraper/scraper_spain_placsp.py:132 | the feed list holds the stripped form of every comma-separated part that is not blank, and nothing else; each entry is non-empty, comma-free and stripped, and there is at most one per part |
| Feed.StrippedParts | scraper/scraper_spain_boe.py:35 | every part that is not blank contributes its stripped form and every entry is the stripped form of a part; entries are non-empty, stripped and comma-free, and there are no more of them than parts |
| Feed.NonEmpty | scraper/scraper_spain_boe.py:35 | the `if u.strip()` filter keeps exactly the non-empty strings, and no others |
| Feed.NonEmptyAppend | scraper/scraper_spain_boe.py:35 | the filter works on each half of a list separately, so it keeps list order |
| Feed.StrippedPartsAppend | scraper/scraper_spain_boe.py:35 | the entries keep the order of the parts: two lists of parts read one after the other give the entries of the first, then of the second |
| Feed.StripKeepsOut | scraper/scraper_spain_placsp.py:132 | stripping never brings in a character |
| Tender.TenderPayload | scraper/scraper_spain_placsp.py:102-119 | the title is cut to 8000 characters and the summary to 8000 or `None`; the url is the url, else the external id, else the placeholder; status `open`, currency `EUR`; the date is always present |
| Tender.UrlIsExternalId | scraper/scraper_radar.py:117 | the stored url always equals the external id and is never empty, so the placeholder url is never used |
| Tender.SavedFlags | scraper/scraper_spain_placsp.py:163-166 | one success flag per selected entry, in order: both the upsert and the category assignment succeeded |
| Tender.SavedCount | scraper/scraper_radar.py:118-121 | the number counted never exceeds the number of entries tried |
| Tender.SavedCountBounds | scraper/scraper_spain_placsp.py:163-169 | every entry is counted exactly when each is saved, and none exactly when none is |
| Tender.SaveAll | scraper/scraper_spain_placsp.py:160-169 | the storing loop, which catches each failure and goes on, counts exactly the entries whose upsert and assignment both succeed |
| Tender.SavedCountStep | scraper/scraper_radar.py:115-124 | each loop step adds one exactly when that entry is saved |
| Tender.SavedCountAppend | scraper/scraper_radar.py:115-124 | counting over a concatenation adds the counts of the parts |
| Ccaa.RssItem | scraper/scraper_spain_ccaa.py:135-141 | the title, link and date are what `strip()` leaves of the element texts, and the summary is the description after `strip_html` |
| Ccaa.AtomHref | scraper/scraper_spain_ccaa.py:146-147 | the link raises exactly when the first Atom `<link>` has no `href`; otherwise it is that `href`, and without an Atom `<link>` it is the plain `<link>` text |
| Ccaa.AtomItem | scraper/scraper_spain_ccaa.py:145-153 | an entry raises exactly when its link does; the link is the stripped `href`; the Atom title is preferred over the plain one; the summary is the Atom summary, else the Atom content, through `strip_html`; the date is the stripped updated, else published |
| Ccaa.ParseRssAtom | scraper/scraper_spain_ccaa.py:125-154 | undecodable bytes give `[]`; an RSS root gives one item per `channel/item`, in order; any other root gives its direct Atom entries |
| Ccaa.ParseRssAtomRaises | scraper/scraper_spain_ccaa.py:143-153 | parsing raises exactly for a non-RSS document one of whose direct Atom entries has a `<link>` without `href` |
| Ccaa.AtomItemsRaise | scraper/scraper_spain_ccaa.py:145-153 | the entry loop raises exactly when one of the entries does |
| Ccaa.FirstListOfObjects | scraper/scraper_spain_ccaa.py:170-175 | the fallback takes the first value that is a non-empty list starting with an object, and nothing when no value qualifies |
| Ccaa.ListUnder | scraper/scraper_spain_ccaa.py:165-166 | `d.get(key)` taken as a list is present exactly when the key holds a list, and is that list |
| Ccaa.CkanRecords | scraper/scraper_spain_ccaa.py:167-168 | `result.records` is present exactly when `result` is an object whose `records` is a list, and is that list |
| Ccaa.Records | scraper/scraper_spain_ccaa.py:162-182 | a bare list is taken as is; an object gives its `data` list when there is one, else `result.records` when that is a list, else the first list of objects, else nothing; anything else gives nothing |
| Ccaa.FieldText | scraper/scraper_spain_ccaa.py:186-189 | a field is `str()` of its first truthy alias, and `""` when there is none |
| Ccaa.JsonItem | scraper/scraper_spain_ccaa.py:184-195 | a record raises exactly when it is not an object; its fields come from the alias chains, and the description goes through `strip_html` |
| Ccaa.ParseJson | scraper/scraper_spain_ccaa.py:156-196 | undecodable bytes give `[]`; otherwise parsing raises exactly when some record is not an object, and else yields, in order, the item each record maps to |
| Ccaa.JsonItemsRaise | scraper/scraper_spain_ccaa.py:184-186 | the record loop raises exactly when some record is not an object |
| Ccaa.ParseSource | scraper/scraper_spain_ccaa.py:211-215 | an entry unpacks into code, name, type and url exactly when it holds at least three vertical bars, each part stripped |
| Ccaa.ParseSourceParts | scraper/scraper_spain_ccaa.py:212 | the four parts of a well-formed entry join back into the entry |
| Ccaa.UpperChar | scraper/scraper_spain_ccaa.py:225 | the model's upper-casing of a character yields one or two characters |
| Ccaa.Upper | scraper/scraper_spain_ccaa.py:225 | the model's upper-casing of `kind` is at least as long as `kind` and at most twice as long, and keeps the length exactly when `kind` holds no `ß` |
| Ccaa.KindOf | scraper/scraper_spain_ccaa.py:225-231 | the XML parser is chosen exactly when the upper-cased type is `RSS` or `ATOM`, and the JSON parser exactly when it is `JSON` |
| Ccaa.UpperAsciiAgrees | scraper/scraper_spain_ccaa.py:225 | on ASCII text, `upper()` is the ASCII upper-casing |
| Ccaa.KindExamples | scraper/scraper_spain_ccaa.py:225-228 | `rss`, `Atom` and `json` select their parsers whatever their case |
| Ccaa.UnknownKind | scraper/scraper_spain_ccaa.py:229-231 | an ASCII type selects no parser exactly when its upper-cased form is none of `RSS`, `ATOM` and `JSON` |
| Ccaa.SharpSKind | scraper/scraper_spain_ccaa.py:225 | `"rß"` upper-cases to `RSS` and so selects the XML parser |
| Ccaa.CcaaPayload | scraper/scraper_spain_ccaa.py:102-121 | the payload carries the derived id, at most 120 characters; the title cut to 500; the summary cut to 6000 or `None`; the link as url; `open`, `EUR`, `ES`; and the date as `parse_datetime` gives it |
| Ccaa.Inserted | scraper/scraper_spain_ccaa.py:233-244 | the count never exceeds the number of items with a link, and it equals the number of items exactly when each item is inserted |
| Ccaa.LinkedItems | scraper/scraper_spain_ccaa.py:239-240 | the items that reach the store are items of the feed that have a link |
| Ccaa.InsertItems | scraper/scraper_spain_ccaa.py:233-244 | the loop counts exactly the linked items the store accepts |
| Ccaa.ProcessSource | scraper/scraper_spain_ccaa.py:217-244 | a source that is not fetched or has an unknown type adds 0; otherwise it raises exactly when its parser does, and else adds the number of its items inserted under `ES-` and the code |
| Ccaa.RunEntries | scraper/scraper_spain_ccaa.py:207-244 | the loop raises exactly when some entry's source raises, and otherwise totals what every entry adds |
| Ccaa.Outcomes | scraper/scraper_spain_ccaa.py:207-244 | one outcome per raw entry, in order |
| Ccaa.MalformedEntrySkipped | scraper/scraper_spain_ccaa.py:208-215 | a blank entry, or one with fewer than three vertical bars, adds nothing and the run continues with the next entry |
| Ccaa.Run | scraper/scraper_spain_ccaa.py:200-244 | a blank `CCAA_FEEDS` inserts nothing, and any other value runs the loop over its comma-separated entries |
| Ccaa.BlankListRunsNothing | scraper/scraper_spain_ccaa.py:202-204 | the early return on a blank list gives what the loop would: every entry of such a list is blank, so the total is 0 |
| Ccaa.UnconfiguredInsertsNothing | scraper/scraper_spain_ccaa.py:82-84 | without credentials, every source that finishes inserts nothing |
| Ccaa.SourceUnconfigured | scraper/scraper_spain_ccaa.py:82-84 | without credentials, a source that finishes adds 0 |
| Ccaa.InsertedUnconfigured | scraper/scraper_spain_ccaa.py:82-84 | without credentials, no item is inserted |
| Placsp.RssItem | scraper/scraper_spain_placsp.py:50-55 | every field is what `strip()` leaves of the element text, and the description keeps its non-space characters, so its markup is kept |
| Placsp.AtomItem | scraper/scraper_spain_placsp.py:61-69 | the link is the `href` as written, or `""`; the title is stripped; the summary is the stripped summary, else content; the date is the stripped updated, else published |
| Placsp.MapRss | scraper/scraper_spain_placsp.py:50-55 | one item per RSS element, in order |
| Placsp.MapAtom | scraper/scraper_spain_placsp.py:74-80 | one item per entry, in order |
| Placsp.ParseRssOrAtom | scraper/scraper_spain_placsp.py:43-81 | the items anywhere below the root win when there are any; else the namespaced Atom entries; only when both are empty, the plain `entry` elements |
| Placsp.ParsedCount | scraper/scraper_spain_placsp.py:56-81 | the count is that of the selection that wins, and the result is empty exactly when all three selections are |
| Placsp.ParseDate | scraper/scraper_spain_placsp.py:83-100 | the result is the clock's time or a valid datetime; each layout is tried in turn, RFC, `DD/MM/YYYY HH:MM`, zoned ISO, naive ISO, date only, and the first that reads the text gives the result; when none does, `fromisoformat` does; when that fails too, the result is the clock's time |
| Placsp.ParseDateZoned | scraper/scraper_spain_placsp.py:84-98 | a zone-aware date comes from a zoned layout or from `fromisoformat`, never from the naive clock |
| Placsp.StrictFilter | scraper/scraper_spain_placsp.py:8 | the filter is on when the variable is unset, and otherwise exactly when its lower-cased value is `true` |
| Placsp.Selected | scraper/scraper_spain_placsp.py:149-160 | with the filter on, the selection is the front `items[:MAX_ITEMS]` of the relevant items in feed order; with it off, the front of the items; either way at most `MAX_ITEMS` items of the feed for a non-negative cap |
| Placsp.StrictKeepsFirstRelevant | scraper/scraper_spain_placsp.py:149-160 | with the filter on, the selection keeps feed order, has `min(relevant, MAX_ITEMS)` entries, and holds every relevant entry with fewer than `MAX_ITEMS` relevant before it |
| Placsp.ProcessFeed | scraper/scraper_spain_placsp.py:137-169 | a feed whose fetch raises or whose XML does not parse adds 0; otherwise it adds the number of selected entries whose upsert and category assignment both succeed |
| Placsp.FeedCounts | scraper/scraper_spain_placsp.py:135-169 | one count per feed, in order |
| Placsp.Run | scraper/scraper_spain_placsp.py:130-171 | the total is the sum of what each listed feed adds; a blank `PLACSP_FEEDS` has already stopped the script at import, before anything is read |
| Placsp.FeedBounded | scraper/scraper_spain_placsp.py:160 | a feed stores at most `MAX_ITEMS` entries, whatever it holds |
| Placsp.FeedsBounded | scraper/scraper_spain_placsp.py:135-169 | a run stores at most `MAX_ITEMS` entries per feed |
| Placsp.TotalAppend | scraper/scraper_spain_placsp.py:131-169 | the total over two lists of feeds read one after the other is the sum of their totals |
| Placsp.FailedFeedSkipped | scraper/scraper_spain_placsp.py:137-142 | a feed that cannot be fetched adds nothing, and the later feeds are still counted |
| Placsp.NegativeCapDropsFromEnd | scraper/scraper_spain_placsp.py:160 | a negative `MAX_ITEMS` drops that many entries from the end instead of disabling the cap |
| Boe.Ascii | scraper/scraper_spain_boe.py:80 | the byte literals are the ASCII codes of their characters |
| Boe.LowerBytes | scraper/scraper_spain_boe.py:79 | `bytes.lower()` keeps the length and lower-cases each byte |
| Boe.BoeFetch | scraper/scraper_spain_boe.py:73-86 | a body is returned exactly when the lenient check passes and its first 200 bytes, lower-cased, neither start with `<!doctype html` nor contain `<html`; it is then unchanged |
| Boe.SniffReadsHead | scraper/scraper_spain_boe.py:79 | bytes after the first 200 never change the HTML verdict |
| Boe.SniffIgnoresCase | scraper/scraper_spain_boe.py:79-80 | a body and its lower-cased copy get the same verdict |
| Boe.UpperDoctypeRejected | scraper/scraper_spain_boe.py:79-82 | a page opening with `<!DOCTYPE HTML>` is rejected |
| Boe.GetText | scraper/scraper_spain_boe.py:60-64 | the text is what `strip()` leaves of the child's text, and `""` without the child |
| Boe.RssItem | scraper/scraper_spain_boe.py:149-154 | the title, link and date are what `strip()` leaves of the element texts, and the summary is the stripped description through `strip_html` |
| Boe.AtomEntry | scraper/scraper_spain_boe.py:161-168 | an entry raises exactly when its Atom `<link>` has no `href`; the link is that `href` as written, or the stripped plain `<link>` text; the Atom title is preferred; the summary is the Atom summary, else the content, through `strip_html`; the date is updated, else published, stripped |
| Boe.ParseFeed | scraper/scraper_spain_boe.py:144-170 | an RSS root gives one item per `channel/item`; any other root raises exactly when a direct entry lacks its `href`, and otherwise gives one item per direct entry |
| Boe.BoePayload | scraper/scraper_spain_boe.py:110-130 | source `ES-BOE`; the id is derived from the link, at most 120; the title is cut to 500 and the summary to 6000 or `None`; `open`, `EUR`, `ES`; a present date is valid and in UTC |
| Boe.InsertFlags | scraper/scraper_spain_boe.py:149-170 | one success flag per item, in order: whether the store accepted its payload |
| Boe.Inserted | scraper/scraper_spain_boe.py:145-173 | a feed never inserts more than it has items |
| Boe.InsertedBounds | scraper/scraper_spain_boe.py:149-170 | every item is counted exactly when each is inserted, including items without a link, and none exactly when none is |
| Boe.ProcessFeed | scraper/scraper_spain_boe.py:132-173 | a rejected fetch or XML that does not parse gives 0; otherwise the feed raises exactly when its entries raise, and else adds the number of its items the store accepts |
| Boe.Contribution | scraper/scraper_spain_boe.py:180-185 | a feed adds its count, and a feed that raises adds 0 |
| Boe.Contributions | scraper/scraper_spain_boe.py:180-185 | one contribution per feed, in order |
| Boe.Run | scraper/scraper_spain_boe.py:175-186 | an empty `BOE_FEEDS` inserts nothing; the total is the sum of what each feed adds, and is zero exactly when every feed adds nothing |
| Boe.TotalAppend | scraper/scraper_spain_boe.py:179-182 | the total over two lists of feeds read one after the other is the sum of their totals |
| Boe.RaisingFeedSkipped | scraper/scraper_spain_boe.py:180-185 | a feed that raises adds nothing, and the later feeds are still read and counted |
| Boe.UnconfiguredInsertsNothing | scraper/scraper_spain_boe.py:88-92 | without credentials, a run inserts nothing |
| Boe.FeedUnconfigured | scraper/scraper_spain_boe.py:88-92 | without credentials, a feed adds 0 |
| Boe.FeedRaises | scraper/scraper_spain_boe.py:146-168 | an RSS feed never raises, and an Atom feed raises exactly when one of its direct entries has an Atom `<link>` without `href` |
| Boe.FeedRaisesWhenParseRaises | scraper/scraper_spain_boe.py:138-170 | once decoded, a feed raises exactly when parsing its entries does |
| Boe.AtomRaises | scraper/scraper_spain_boe.py:157-168 | for a non-RSS root, parsing raises exactly when one of the direct Atom entries lacks its `href` |
| Boe.AtomEntriesRaise | scraper/scraper_spain_boe.py:161-168 | the loop over Atom entries raises exactly when one of the entries has an Atom `<link>` without `href` |
| Boe.DocumentedDateFields | scraper/scraper_spain_boe.py:47 | the documented example date reads as 2025-09-10 00:00:00 at offset +02:00 |
| Boe.DocumentedDateInUtc | scraper/scraper_spain_boe.py:47-51 | the documented example date normalises to 2025-09-09T22:00:00 UTC, whatever the host's offset |
| Radar.EntryItem | scraper/scraper_radar.py:47-55 | the title is stripped; the summary is the stripped summary, else content; the link is the `href` or `""`; the date is updated, else published, exactly as written |
| Radar.ParseAtom | scraper/scraper_radar.py:43-56 | one item per Atom entry anywhere below the root, in document order |
| Radar.ParseDate | scraper/scraper_radar.py:58-63 | the result is the clock's time or a valid datetime; the zoned ISO, naive ISO and date-only layouts are tried in turn on the text with `Z` as `+0000`, and the first that reads it gives the result; then `fromisoformat` on the text with `Z` as `+00:00`; when all fail, the clock's time |
| Radar.UtcStampDated | scraper/scraper_radar.py:58-63 | a TED stamp `YYYY-MM-DDTHH:MM:SSZ` is read as that wall-clock time at offset 0, and an impossible one falls back to the clock |
| Radar.Selected | scraper/scraper_radar.py:108-115 | the stored entries are the front, at most 200 long, of the relevant entries in feed order |
| Radar.SelectedKeepsRelevant | scraper/scraper_radar.py:108-115 | the stored entries keep feed order; there are as many as relevant entries up to 200; every relevant entry with fewer than 200 relevant before it is stored, so all are when there are at most 200 |
| Radar.ProcessSource | scraper/scraper_radar.py:95-124 | a source stores at most 200 entries; nothing when its fetch raises or its XML does not parse; otherwise the number of selected entries whose upsert and category assignment both succeed |
| Radar.Run | scraper/scraper_radar.py:93-126 | the total is what the single TED source adds, at most 200 |
| Radar.StoredAreRelevant | scraper/scraper_radar.py:108-122 | every stored tender is a relevant entry of the feed, stored under the source's code and the country `EU` |

## Left out

- Network, store, environment, logging and sleeping: `requests.get`/`post`, the store's answers, `os.environ`, `print`/`log` and `time.sleep` are parameters of `Env`, or absent when they cannot affect a result.
- Library decoders: `ET.fromstring` and `json.loads` are parameters (`bytes -> Option<tree>`). The tree and the JSON value are abstract datatypes.
- JSON floats and duplicate keys are not represented. `Json.Get` takes the first entry with a key, whereas Python's `dict` keeps the last.
- Json.PyStr: inside a list or an object, a string is always written between single quotes. `repr`'s choice of quotes and its escape sequences are not modelled.
- Html.Unescape: only `&amp;`, `&lt;`, `&gt;`, `&quot;`, `&apos;`, `&#39;` and `&nbsp;` are decoded. `html.unescape`'s full entity table and numeric references are not.
- Common.Lower: ASCII only. `str.lower()` also lower-cases other capitals and turns `İ` into two characters. Neither changes whether the result equals `true` or ends with `rss`: the only non-ASCII character that lower-cases to an ASCII letter is the Kelvin sign, which gives `k`, and `İ` gives `i` followed by a combining dot.
- Keywords.Fold: folds ASCII and Latin-1 capitals, and the four characters outside that range which `re.IGNORECASE` matches with an ASCII letter (`İ` and `ı` with `i`, `ſ` with `s`, the Kelvin sign with `k`). Other capitals, such as those of Latin Extended-A, are kept as they are. That never changes a match: every keyword letter is ASCII or one of `á é í ó ñ`, and no other character folds onto those.
- Keywords.IsWordChar: `\w` is exact on ASCII and Latin-1 (letters, `ª µ º` and the numerals `² ³ ¹ ¼ ½ ¾`) and on the Latin Extended-A letters. Letters and digits beyond U+017F are not word characters in the model, so `\b` next to such a character can differ from Python's.
- Identity.IsUnicodeDigit: `\d` covers the ASCII, Arabic-Indic, Extended Arabic-Indic, Devanagari, Bengali and fullwidth digits only, not every Unicode decimal digit.
- Ccaa.UpperChar: exact on ASCII and on `ß`, `ſ` and `ı`. Any other character is kept as it is. That can differ from `str.upper()`, which also upper-cases other letters and can turn one character into three (`ﬃ` gives `FFI`), but never in whether the result equals `RSS`, `ATOM` or `JSON`: the only other characters that upper-case to ASCII letters are the Latin ligatures, whose results (`FF`, `FI`, `FL`, `FFI`, `FFL`, `ST`) occur in none of the three names.
- Dates.ParseRfc5322: covers only the fixed-width form `Ddd, DD Mon YYYY HH:MM:SS zone` of RFC 5322 section 3.3, with a numeric or named zone. Like `parsedate_to_datetime`, it drops the first token unread when that token ends in a comma, so any three non-space characters stand in for the weekday; a four-digit year below 100 is mapped as Python maps it. The other forms `parsedate_to_datetime` accepts are not covered: no first token, one-digit days, years written with two digits, missing seconds and obsolete syntax.
- Dates.ParseIso: covers `YYYY-MM-DD`, optionally followed by one separator character, `HH:MM` or `HH:MM:SS`, and an optional `+HH:MM`/`-HH:MM` offset. Fractions, hour-only times, week dates and the compact forms of newer `fromisoformat` versions are not covered.
- Dates.ToUtc: sub-minute UTC offsets are not represented. The host's local offset and the clock (`utcnow()`) are parameters. The local offset is one number for the whole run, so a host whose offset changes with daylight saving is read with the same offset on both sides of the change.
- Identity.FallbackId: Python's salted string `hash` is a parameter fixed for one run. Nothing is claimed across runs.
- `int(MAX_ITEMS)` parsing of the environment variable is not modelled. The cap arrives as an integer, and a malformed value (which raises at import) is outside the model.
- Boe.ProcessFeed: the upserts made before an entry raises `TypeError` are discarded with the feed's count, as in `main`. Their effect on the store is not tracked.
- Html.ReplaceBr: the contract does not say that no `<br>` is left, because one can be left: the substitution is a single pass, and replacing an inner `<br>` can form a new one from the text around it (`Html.BrReplacedOnce`), as in Python. The tag pass that follows removes it, so `Html.NoBrLeft` holds for the whole cleaning.
- Dates.StrpRfc: accepts only the fixed-width form, with two-digit day, hour, minute and second and single spaces; the weekday and month names may be in any case. `strptime` also reads one-digit fields and any run of whitespace where the format has a space. On such text the model's PLACSP reader falls to the next layout and, when none reads it, to the clock. The contract states that a match is valid and zone-aware, not which characters feed which field; `Boe.DocumentedDateFields` pins one full reading.
- Dates.StrpSlash: accepts only `DD/MM/YYYY HH:MM` with two-digit fields and one space. `strptime` also reads one-digit day, month, hour and minute and any run of whitespace; on such text the model's reader falls through to the later layouts and then to the clock. The contract states that a match is valid and naive, not which characters feed which field.
- Dates.StrpIsoZoned: accepts only `YYYY-MM-DDTHH:MM:SS` with two-digit fields and an upper-case `T`, then `+HHMM` or `+HH:MM`. `strptime` also reads one-digit fields and a lower-case `t`; on such text the model's readers fall through to the later layouts and then to the clock. The contract states that a match is valid and zone-aware, not which characters feed which field.
- Dates.StrpIsoNaive: accepts only `YYYY-MM-DDTHH:MM:SS` with two-digit fields and an upper-case `T`, with the same consequence. The contract states that a match is valid and naive; `Radar.UtcStampDated` pins the reading of the TED stamps.
- Dates.StrpDate: accepts only `YYYY-MM-DD` with two-digit month and day. `strptime` also reads `2025-9-10`; the model's readers then try `fromisoformat`, which rejects it too, and fall back to the clock. The contract states that a match is valid and naive, not which characters feed which field.
- Placsp.ParseDate: because of the narrowed `strptime` layouts above, a date such as `Wed, 1 Sep 2025 10:00:00 +0200`, which Python reads, gets the clock's time in the model. The contract fixes the result for every text in terms of the model's layouts; it does not claim that those layouts read every text Python reads.
- Radar.ParseDate: likewise, a date such as `2025-9-10`, which Python reads, gets the clock's time in the model.
- Dates.ParseRfc5322: the contract states that a result is valid and how the year is read (`Dates.RfcYearWindow`), not which characters feed the other fields; `Boe.DocumentedDateFields` pins one full reading.
- Dates.ParseIso: the contract states only that a result is valid. `Dates.UtcSuffixIso` relates it to the `strptime` reading of the same stamp.
- Radar.StoredAreRelevant and Tender.UrlIsExternalId follow from the definitions without extra proof steps.
- The web front end and its search proxy have no feed logic and are not part of this model.
