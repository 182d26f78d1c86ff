/** The relevance filter of the PLACSP and TED readers: a case-insensitive
    search for `(alt1|alt2|...)\b` over `title + "\n" + summary`
    (scraper/scraper_spain_placsp.py:29-35, scraper/scraper_radar.py:19-24). */
module Keywords {
  import opened Common
  import opened Feed

  // ---------------------------------------------------------------------
  // Character classes of `re` on `str`

  /** Case folding as `re.IGNORECASE` applies it on the alphabet of the
      keyword lists: ASCII and Latin-1 letters, plus the characters outside
      that range which match an ASCII letter: the dotted capital I and the
      dotless small i, which match `i`, the long s, which matches `s`, and
      the Kelvin sign, which matches `k`. */
  function Fold(c: char): (r: char)
    ensures !('A' <= r <= 'Z')
    ensures IsAsciiDigit(c) || 'a' <= c <= 'z' || c == '_' ==> r == c
    ensures IsAsciiLetter(r) && !IsAsciiLetter(c) ==>
      c == '\U{130}' || c == '\U{131}' || c == '\U{17F}' || c == '\U{212A}'
    ensures c != '\U{212A}' ==> (IsWordChar(r) <==> IsWordChar(c))
  {
    if 'A' <= c <= 'Z' then (c as int + 32) as char
    else if '\U{C0}' <= c <= '\U{DE}' && c != '\U{D7}' then (c as int + 32) as char
    else if c == '\U{130}' || c == '\U{131}' then 'i'
    else if c == '\U{17F}' then 's'
    else if c == '\U{212A}' then 'k'
    else c
  }

  /** `\w`: letters, digits and `_`. Beyond ASCII these are the letters of
      the Latin-1 and Latin Extended-A blocks and the Latin-1 numerals
      (superscript digits and vulgar fractions), which `str.isalnum`
      accepts. */
  predicate IsWordChar(c: char): (b: bool)
    ensures b ==> !IsSpace(c)
  {
    || IsAsciiAlnum(c) || c == '_'
    || ('\U{C0}' <= c <= '\U{17F}' && c != '\U{D7}' && c != '\U{F7}')
    || c == '\U{AA}' || c == '\U{B5}' || c == '\U{BA}'
    || c == '\U{B2}' || c == '\U{B3}' || c == '\U{B9}'
    || ('\U{BC}' <= c <= '\U{BE}')
  }

  /** `\b` at position `p` of `t`: exactly one side is a word character. */
  predicate Boundary(t: string, p: int)
    requires 0 <= p <= |t|
  {
    (p > 0 && IsWordChar(t[p - 1])) != (p < |t| && IsWordChar(t[p]))
  }

  /** The alternative `k` matches `t` at `i`, case-insensitively, and is
      followed by a word boundary. */
  predicate MatchAt(t: string, k: string, i: int) {
    && 0 <= i && i + |k| <= |t|
    && (forall j :: 0 <= j < |k| ==> Fold(t[i + j]) == Fold(k[j]))
    && Boundary(t, i + |k|)
  }

  /** `KEYWORDS.search(t)` is truthy: some alternative matches somewhere. */
  ghost predicate Relevant(t: string, kws: seq<string>) {
    exists k, i :: k in kws && MatchAt(t, k, i)
  }

  // ---------------------------------------------------------------------
  // The search

  /** Some alternative of `kws[n..]` matches at `i`. */
  function AnyAt(t: string, kws: seq<string>, i: int, n: nat): (r: bool)
    requires n <= |kws|
    ensures r <==> exists m :: n <= m < |kws| && MatchAt(t, kws[m], i)
    decreases |kws| - n
  {
    if n == |kws| then false
    else MatchAt(t, kws[n], i) || AnyAt(t, kws, i, n + 1)
  }

  /** Some alternative matches at a position from `i` on. */
  function FoundFrom(t: string, kws: seq<string>, i: nat): (r: bool)
    requires i <= |t| + 1
    ensures r <==> exists j, m :: i <= j <= |t| && 0 <= m < |kws| && MatchAt(t, kws[m], j)
    decreases |t| + 1 - i
  {
    if i == |t| + 1 then false
    else AnyAt(t, kws, i, 0) || FoundFrom(t, kws, i + 1)
  }

  /** `KEYWORDS.search(text)`: scans every position and every alternative. */
  function Search(t: string, kws: seq<string>): (r: bool)
    ensures r <==> Relevant(t, kws)
  {
    ScanCoversRelevant(t, kws);
    FoundFrom(t, kws, 0)
  }

  /** Scanning every position from 0 to `|t|` finds a match exactly when
      one exists anywhere. */
  lemma ScanCoversRelevant(t: string, kws: seq<string>)
    ensures FoundFrom(t, kws, 0) <==> Relevant(t, kws)
  {
    if FoundFrom(t, kws, 0) {
      var j, m :| 0 <= j <= |t| && 0 <= m < |kws| && MatchAt(t, kws[m], j);
      assert kws[m] in kws;
    }
    if Relevant(t, kws) {
      var k, i :| k in kws && MatchAt(t, k, i);
      var m :| 0 <= m < |kws| && kws[m] == k;
      assert 0 <= i <= |t| && MatchAt(t, kws[m], i);
    }
  }

  /** The text a relevance test reads. */
  function ItemText(it: Item): string {
    it.title + "\n" + it.summary
  }

  predicate IsRelevant(it: Item, kws: seq<string>) {
    Search(ItemText(it), kws)
  }

  // ---------------------------------------------------------------------
  // Filtering

  /** The items that pass the relevance test, in feed order. */
  function KeepRelevant(items: seq<Item>, kws: seq<string>): (r: seq<Item>)
    ensures |r| <= |items|
    ensures forall x :: x in r ==> x in items && IsRelevant(x, kws)
    ensures forall i :: 0 <= i < |items| && IsRelevant(items[i], kws) ==> items[i] in r
  {
    if items == [] then []
    else (if IsRelevant(items[0], kws) then [items[0]] else []) + KeepRelevant(items[1..], kws)
  }

  /** The filter step of both readers: with the strict toggle off every item
      passes; with it on, exactly the relevant ones, in order. */
  function Filter(items: seq<Item>, strict: bool, kws: seq<string>): (r: seq<Item>)
    ensures !strict ==> r == items
    ensures strict ==> forall x :: x in r ==> x in items && Relevant(ItemText(x), kws)
    ensures strict ==> forall i :: 0 <= i < |items| && Relevant(ItemText(items[i]), kws) ==> items[i] in r
  {
    if strict then KeepRelevant(items, kws) else items
  }

  /** The filter keeps feed order. */
  lemma {:induction false} KeepRelevantIsSubsequence(items: seq<Item>, kws: seq<string>)
    ensures IsSubsequence(KeepRelevant(items, kws), items)
  {
    if items != [] {
      KeepRelevantIsSubsequence(items[1..], kws);
      var rest := KeepRelevant(items[1..], kws);
      if IsRelevant(items[0], kws) {
        assert KeepRelevant(items, kws) == [items[0]] + rest;
        assert ([items[0]] + rest)[1..] == rest;
      } else {
        assert KeepRelevant(items, kws) == rest;
        SubsequenceDrop(rest, items);
      }
    }
  }

  /** The first `cap` relevant items, as `filtered[:cap]` keeps them: in
      feed order, and every relevant item with fewer than `cap` relevant
      items before it is among them. */
  lemma FrontOfRelevant(items: seq<Item>, kws: seq<string>, cap: nat)
    ensures IsSubsequence(Prefix(KeepRelevant(items, kws), cap), items)
    ensures forall i :: 0 <= i < |items| && IsRelevant(items[i], kws) && |KeepRelevant(items[..i], kws)| < cap ==>
              items[i] in Prefix(KeepRelevant(items, kws), cap)
  {
    var kept := KeepRelevant(items, kws);
    KeepRelevantIsSubsequence(items, kws);
    SubsequencePrefix(kept, items, |Prefix(kept, cap)|);
    forall i | 0 <= i < |items| && IsRelevant(items[i], kws) && |KeepRelevant(items[..i], kws)| < cap
      ensures items[i] in Prefix(kept, cap)
    {
      RelevantAtIndex(items, kws, i);
    }
  }

  /** A relevant item sits in the filtered list right after the relevant
      items before it. */
  lemma RelevantAtIndex(items: seq<Item>, kws: seq<string>, i: nat)
    requires i < |items| && IsRelevant(items[i], kws)
    ensures |KeepRelevant(items[..i], kws)| < |KeepRelevant(items, kws)|
    ensures KeepRelevant(items, kws)[|KeepRelevant(items[..i], kws)|] == items[i]
  {
    assert items == items[..i] + items[i..];
    KeepRelevantAppend(items[..i], items[i..], kws);
    assert items[i..][0] == items[i];
    assert KeepRelevant(items[i..], kws) == [items[i]] + KeepRelevant(items[i..][1..], kws);
  }

  /** Filtering a concatenation filters each part. */
  lemma {:induction false} KeepRelevantAppend(a: seq<Item>, b: seq<Item>, kws: seq<string>)
    ensures KeepRelevant(a + b, kws) == KeepRelevant(a, kws) + KeepRelevant(b, kws)
  {
    if a == [] {
      assert a + b == b;
    } else {
      assert (a + b)[0] == a[0];
      assert (a + b)[1..] == a[1..] + b;
      KeepRelevantAppend(a[1..], b, kws);
    }
  }

  // ---------------------------------------------------------------------
  // The keyword lists, with the character classes spelled out as
  // separate alternatives

  /** `KEYWORDS` of scraper/scraper_spain_placsp.py:29-35. */
  const PlacspKeywords: seq<string> := [
    "inteligencia artificial", "ai", "machine learning", "deep learning",
    "datos", "data", "big data", "analitica", "analítica",
    "visualizacion", "visualización", "cloud", "nube", "aws", "azure", "gcp",
    "kubernetes", "devops", "software", "desarrollo",
    "ux", "ui", "diseño", "ciberseguridad",
    "seguridad informatica", "seguridad informática", "iot",
    "realidad virtual", "realidad aumentada",
    "blockchain", "gemelos digitales", "5g", "hpc",
    "supercomputacion", "supercomputación", "plataforma digital",
    "data lake", "data mesh"]

  /** `KEYWORDS` of scraper/scraper_radar.py:19-24. */
  const RadarKeywords: seq<string> := [
    "inteligencia artificial", "machine learning", "deep learning",
    "datos", "big data", "analítica",
    "visualización", "cloud", "nube", "aws", "azure", "gcp",
    "kubernetes", "devops", "software", "desarrollo",
    "ux", "ui", "diseño", "ciberseguridad", "seguridad", "iot",
    "realidad virtual", "realidad aumentada", "blockchain", "gemelos digitales"]
}
