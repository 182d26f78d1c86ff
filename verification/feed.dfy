/** The record shapes every reader shares: the candidate item a parser
    extracts, and the payload sent to the `upsert_tender` procedure. */
module Feed {
  import opened Common
  import opened Dates

  /** A feed entry before normalisation; absent fields are `""`. */
  datatype Item = Item(title: string, link: string, summary: string, published: string)

  /** The arguments of `upsert_tender` that carry information. The
      arguments every reader passes as `None` (budget, entity, region,
      deadline, body, cpv) are left out. */
  datatype Payload = Payload(
    sourceCode: string,
    externalId: string,
    title: string,
    url: string,
    summary: Option<string>,
    status: string,
    currency: string,
    country: string,
    published: Option<DateTime>)

  const StatusOpen: string := "open"
  const CurrencyEur: string := "EUR"

  /** `(s or "")[:n] or None`: the first `n` characters, `None` when that
      is empty. */
  function OptionalPrefix(s: string, n: nat): (r: Option<string>)
    ensures (s == [] || n == 0) <==> r.None?
    ensures r.Some? ==> r.value == Prefix(s, n) && 0 < |r.value| <= n
  {
    if s == [] || n == 0 then None else Some(Prefix(s, n))
  }

  // ---------------------------------------------------------------------
  // Fetching

  /** What `requests.get` yields: an exception (connection error, timeout,
      too many redirects) or a response with its status and body. */
  datatype Response = Failed | Response(status: int, body: seq<byte>)

  /** The `fetch` of the CCAA reader: the body, or `None` on an exception,
      an HTTP status of 400 or more, or an empty body. */
  function LenientFetch(resp: Response): (r: Option<seq<byte>>)
    ensures r.Some? <==> resp.Response? && resp.status < 400 && resp.body != []
    ensures r.Some? ==> r.value == resp.body
  {
    match resp
    case Failed => None
    case Response(status, body) => if status >= 400 || |body| == 0 then None else Some(body)
  }

  /** The `fetch` of the PLACSP and TED readers, whose `raise_for_status`
      raises for statuses 400 to 599 only; the caller catches the exception
      and skips the feed. An empty body is passed on. */
  function StrictFetch(resp: Response): (r: Option<seq<byte>>)
    ensures r.Some? <==> resp.Response? && !(400 <= resp.status < 600)
    ensures r.Some? ==> r.value == resp.body
  {
    match resp
    case Failed => None
    case Response(status, body) => if 400 <= status < 600 then None else Some(body)
  }

  // ---------------------------------------------------------------------
  // Feed lists

  /** `[u.strip() for u in env.split(",") if u.strip()]`. */
  function FeedList(env: string): (r: seq<string>)
    ensures |r| <= CountChar(env, ',') + 1
    ensures forall u :: u in r ==> CleanEntry(u)
    ensures forall i :: 0 <= i < |Split(env, ',')| && Strip(Split(env, ',')[i]) != [] ==>
              Strip(Split(env, ',')[i]) in r
    ensures forall j :: 0 <= j < |r| ==>
              exists i :: 0 <= i < |Split(env, ',')| && r[j] == Strip(Split(env, ',')[i])
  {
    SplitCount(env, ',');
    StrippedParts(Split(env, ','))
  }

  /** A usable entry of a comma-separated list: non-empty, without commas,
      and neither starting nor ending with whitespace. */
  predicate CleanEntry(u: string) {
    u != [] && ',' !in u && !IsSpace(u[0]) && !IsSpace(u[|u| - 1])
  }

  /** `[u.strip() for u in parts]`. */
  function StripAll(parts: seq<string>): (r: seq<string>)
    ensures |r| == |parts| && forall i :: 0 <= i < |parts| ==> r[i] == Strip(parts[i])
  {
    if parts == [] then [] else [Strip(parts[0])] + StripAll(parts[1..])
  }

  /** The non-empty strings of `xs`, in order: the `if u` of a list
      comprehension. */
  function NonEmpty(xs: seq<string>): (r: seq<string>)
    ensures |r| <= |xs|
    ensures forall i :: 0 <= i < |xs| && xs[i] != [] ==> xs[i] in r
    ensures forall u :: u in r ==> u != [] && u in xs
  {
    if xs == [] then []
    else
      var rest := NonEmpty(xs[1..]);
      assert forall i :: 1 <= i < |xs| ==> xs[1..][i - 1] == xs[i];
      if xs[0] == [] then rest else [xs[0]] + rest
  }

  /** Filtering works on each half of a list separately, so it keeps the
      order of the list. */
  lemma {:induction false} NonEmptyAppend(a: seq<string>, b: seq<string>)
    ensures NonEmpty(a + b) == NonEmpty(a) + NonEmpty(b)
  {
    if a == [] {
      assert a + b == b;
    } else {
      assert (a + b)[0] == a[0] && (a + b)[1..] == a[1..] + b;
      NonEmptyAppend(a[1..], b);
    }
  }

  /** The non-empty stripped parts, in order. */
  function StrippedParts(parts: seq<string>): (r: seq<string>)
    requires forall p :: p in parts ==> ',' !in p
    ensures |r| <= |parts|
    ensures forall u :: u in r ==> CleanEntry(u)
    ensures forall i :: 0 <= i < |parts| && Strip(parts[i]) != [] ==> Strip(parts[i]) in r
    ensures forall j :: 0 <= j < |r| ==> exists i :: 0 <= i < |parts| && r[j] == Strip(parts[i])
  {
    StripAllClean(parts);
    NonEmptyStripped(parts);
    NonEmpty(StripAll(parts))
  }

  /** Each entry is the stripped form of some part. */
  lemma NonEmptyStripped(parts: seq<string>)
    ensures forall j :: 0 <= j < |NonEmpty(StripAll(parts))| ==>
              exists i :: 0 <= i < |parts| && NonEmpty(StripAll(parts))[j] == Strip(parts[i])
  {
    var xs := StripAll(parts);
    var r := NonEmpty(xs);
    forall j | 0 <= j < |r|
      ensures exists i :: 0 <= i < |parts| && r[j] == Strip(parts[i])
    {
      assert r[j] in xs;
      var i :| 0 <= i < |xs| && xs[i] == r[j];
      assert r[j] == Strip(parts[i]);
    }
  }

  /** Every stripped part neither starts nor ends with whitespace, and has
      no comma when its part has none. */
  lemma StripAllClean(parts: seq<string>)
    requires forall p :: p in parts ==> ',' !in p
    ensures forall u :: u in StripAll(parts) && u != [] ==> CleanEntry(u)
  {
    forall i | 0 <= i < |parts|
      ensures ',' !in StripAll(parts)[i]
    {
      StripKeepsOut(parts[i], ',');
    }
  }

  /** The entries keep the order of the parts: the entries of two lists
      read one after the other are those of the first, then those of the
      second. */
  lemma {:induction false} StrippedPartsAppend(a: seq<string>, b: seq<string>)
    requires forall p :: p in a + b ==> ',' !in p
    ensures StrippedParts(a + b) == StrippedParts(a) + StrippedParts(b)
  {
    assert forall p :: p in a ==> p in a + b;
    assert forall p :: p in b ==> p in a + b;
    StripAllAppend(a, b);
    NonEmptyAppend(StripAll(a), StripAll(b));
  }

  /** Stripping every part works on each half of a list separately. */
  lemma {:induction false} StripAllAppend(a: seq<string>, b: seq<string>)
    ensures StripAll(a + b) == StripAll(a) + StripAll(b)
  {
    if a == [] {
      assert a + b == b;
    } else {
      assert (a + b)[0] == a[0] && (a + b)[1..] == a[1..] + b;
      StripAllAppend(a[1..], b);
    }
  }

  /** Stripping never brings in a character. */
  lemma StripKeepsOut(s: string, c: char)
    requires c !in s
    ensures c !in Strip(s)
  {
    var u := Strip(s);
    var i :| 0 <= i <= |s| && StrippedAt(s, u, i);
    assert forall k :: 0 <= k < |u| ==> u[k] == s[i + k];
  }
}
