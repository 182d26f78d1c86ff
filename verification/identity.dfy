/** How each reader derives the `external_id` of a tender from its link:
    the CCAA reader takes the first long alphanumeric run
    (scraper/scraper_spain_ccaa.py:103-106), the BOE reader the value of
    an `id=` parameter (scraper/scraper_spain_boe.py:112-115), and the
    PLACSP and TED readers the link itself or, for an entry without a
    link, a synthetic id built from the title and a hash. */
module Identity {
  import opened Common

  /** Both `build_payload`s cut the id to this many characters. */
  const MaxIdLength: nat := 120

  /** The character classes the two patterns use. */
  datatype Class = AsciiAlnum | UnicodeDigit | IdChar

  /** `\d` of `re` on `str`: the ASCII digits and the decimal digits of the
      Arabic-Indic, Extended Arabic-Indic, Devanagari, Bengali and
      fullwidth blocks. */
  predicate IsUnicodeDigit(c: char) {
    || IsAsciiDigit(c)
    || ('\U{0660}' <= c <= '\U{0669}') || ('\U{06F0}' <= c <= '\U{06F9}')
    || ('\U{0966}' <= c <= '\U{096F}') || ('\U{09E6}' <= c <= '\U{09EF}')
    || ('\U{FF10}' <= c <= '\U{FF19}')
  }

  predicate InClass(c: char, k: Class) {
    match k
    case AsciiAlnum => IsAsciiAlnum(c)
    case UnicodeDigit => IsUnicodeDigit(c)
    case IdChar => IsAsciiAlnum(c) || c == '-' || c == '.' || c == '_'
  }

  /** Length of the longest run of class `k` starting at `i`: what a greedy
      `[...]+` consumes there. */
  function RunLen(s: string, i: nat, k: Class): (n: nat)
    requires i <= |s|
    ensures i + n <= |s|
    ensures forall j :: i <= j < i + n ==> InClass(s[j], k)
    ensures i + n < |s| ==> !InClass(s[i + n], k)
    decreases |s| - i
  {
    if i < |s| && InClass(s[i], k) then 1 + RunLen(s, i + 1, k) else 0
  }

  // ---------------------------------------------------------------------
  // CCAA: re.search(r"([A-Za-z0-9]{6,}|\d{6,})", link)

  /** Length of the match of `[A-Za-z0-9]{6,}|\d{6,}` at `i`, 0 when neither
      alternative matches there; the first alternative is preferred. */
  function CcaaMatchLen(s: string, i: nat): (n: nat)
    requires i <= |s|
    ensures n == 0 || (6 <= n && i + n <= |s|)
    ensures n > 0 <==> RunLen(s, i, AsciiAlnum) >= 6 || RunLen(s, i, UnicodeDigit) >= 6
    ensures RunLen(s, i, AsciiAlnum) >= 6 ==> n == RunLen(s, i, AsciiAlnum)
    ensures RunLen(s, i, AsciiAlnum) < 6 && n > 0 ==> n == RunLen(s, i, UnicodeDigit)
  {
    if RunLen(s, i, AsciiAlnum) >= 6 then RunLen(s, i, AsciiAlnum)
    else if RunLen(s, i, UnicodeDigit) >= 6 then RunLen(s, i, UnicodeDigit)
    else 0
  }

  /** The leftmost position from `i` on where the pattern matches. */
  function CcaaSearchFrom(s: string, i: nat): (r: Option<nat>)
    requires i <= |s|
    ensures r.Some? ==> i <= r.value <= |s| && CcaaMatchLen(s, r.value) > 0
    ensures r.Some? ==> forall j :: i <= j < r.value ==> CcaaMatchLen(s, j) == 0
    ensures r.None? ==> forall j :: i <= j <= |s| ==> CcaaMatchLen(s, j) == 0
    decreases |s| - i
  {
    if CcaaMatchLen(s, i) > 0 then Some(i)
    else if i == |s| then None
    else CcaaSearchFrom(s, i + 1)
  }

  /** A run of six characters of one class begins at `i`. */
  predicate SixRunAt(s: string, i: int) {
    && 0 <= i && i + 6 <= |s|
    && ((forall j :: i <= j < i + 6 ==> IsAsciiAlnum(s[j]))
        || (forall j :: i <= j < i + 6 ==> IsUnicodeDigit(s[j])))
  }

  /** The match length is positive exactly where a six-character run of one
      class begins. */
  lemma CcaaMatchWhereSixRun(s: string, i: nat)
    requires i <= |s|
    ensures CcaaMatchLen(s, i) > 0 <==> SixRunAt(s, i)
  {
    if SixRunAt(s, i) {
      if forall j :: i <= j < i + 6 ==> IsAsciiAlnum(s[j]) {
        RunAtLeast(s, i, 6, AsciiAlnum);
      } else {
        RunAtLeast(s, i, 6, UnicodeDigit);
      }
    }
  }

  /** A run of class `k` of length `n` at `i` makes `RunLen` at least `n`. */
  lemma {:induction false} RunAtLeast(s: string, i: nat, n: nat, k: Class)
    requires i + n <= |s|
    requires forall j :: i <= j < i + n ==> InClass(s[j], k)
    ensures RunLen(s, i, k) >= n
    decreases n
  {
    if n > 0 {
      RunAtLeast(s, i + 1, n - 1, k);
    }
  }

  /** `ext[:120]` where `ext` is the matched run, or the whole link when
      there is no match. The run is the whole greedy run at the match: of
      ASCII letters and digits when six of them start there, of decimal
      digits otherwise. */
  function CcaaExternalId(link: string): (r: string)
    ensures |r| <= MaxIdLength
    ensures (forall j :: 0 <= j <= |link| ==> !SixRunAt(link, j)) ==> r == Prefix(link, MaxIdLength)
    ensures CcaaSearchFrom(link, 0).Some? ==> 6 <= |r|
    ensures CcaaSearchFrom(link, 0).Some? ==>
              var p := CcaaSearchFrom(link, 0).value;
              && (RunLen(link, p, AsciiAlnum) >= 6 ==> IdRunAt(link, r, p, AsciiAlnum))
              && (RunLen(link, p, AsciiAlnum) < 6 ==> IdRunAt(link, r, p, UnicodeDigit))
  {
    match CcaaSearchFrom(link, 0)
    case None =>
      Prefix(link, MaxIdLength)
    case Some(p) =>
      CcaaMatchIsIdRun(link, p);
      Prefix(link[p..p + CcaaMatchLen(link, p)], MaxIdLength)
  }

  /** Where the pattern matches, the cut match is the greedy run of the
      alternative that matched. */
  lemma CcaaMatchIsIdRun(link: string, p: nat)
    requires p <= |link| && CcaaMatchLen(link, p) > 0
    ensures SixRunAt(link, p)
    ensures var r := Prefix(link[p..p + CcaaMatchLen(link, p)], MaxIdLength);
            && 6 <= |r|
            && (RunLen(link, p, AsciiAlnum) >= 6 ==> IdRunAt(link, r, p, AsciiAlnum))
            && (RunLen(link, p, AsciiAlnum) < 6 ==> IdRunAt(link, r, p, UnicodeDigit))
  {
    CcaaMatchWhereSixRun(link, p);
    if RunLen(link, p, AsciiAlnum) >= 6 {
      RunSliceIsIdRun(link, p, AsciiAlnum);
    } else {
      RunSliceIsIdRun(link, p, UnicodeDigit);
    }
  }

  /** The greedy run of a class at `p`, cut to 120 characters, is the run
      `IdRunAt` describes. */
  lemma RunSliceIsIdRun(link: string, p: nat, k: Class)
    requires p <= |link| && RunLen(link, p, k) > 0
    ensures IdRunAt(link, Prefix(link[p..p + RunLen(link, p, k)], MaxIdLength), p, k)
  {
    var n := RunLen(link, p, k);
    var r := Prefix(link[p..p + n], MaxIdLength);
    assert forall j :: 0 <= j < |r| ==> r[j] == link[p + j];
    assert IdFoundAt(link, r, p);
  }

  /** `r` is a slice of `link` starting at `p`. */
  predicate IdFoundAt(link: string, r: string, p: int) {
    0 <= p && p + |r| <= |link| && link[p..p + |r|] == r
  }

  /** `r` is the greedy run of class `k` at `p`, cut to 120 characters:
      a non-empty slice of that class which stops at the cut, at the end
      of the link or before a character outside the class. */
  predicate IdRunAt(link: string, r: string, p: int, k: Class) {
    && r != [] && |r| <= MaxIdLength && IdFoundAt(link, r, p)
    && (forall c :: c in r ==> InClass(c, k))
    && (|r| < MaxIdLength && p + |r| < |link| ==> !InClass(link[p + |r|], k))
  }

  /** At most one string is the run of a class at a position, so
      `IdRunAt` pins the id. */
  lemma IdRunUnique(link: string, a: string, b: string, p: int, k: Class)
    requires IdRunAt(link, a, p, k) && IdRunAt(link, b, p, k)
    ensures a == b
  {
    assert |a| == |b|;
  }

  /** The search finds a match exactly when a six-character run of one
      class occurs in the link, and it finds the leftmost one. */
  lemma CcaaIdLeftmost(link: string)
    ensures CcaaSearchFrom(link, 0).Some? <==> exists j :: 0 <= j <= |link| && SixRunAt(link, j)
    ensures CcaaSearchFrom(link, 0).Some? ==>
              var p := CcaaSearchFrom(link, 0).value;
              && SixRunAt(link, p)
              && (forall j :: 0 <= j < p ==> !SixRunAt(link, j))
  {
    match CcaaSearchFrom(link, 0)
    case None =>
      forall j | 0 <= j <= |link| ensures !SixRunAt(link, j) {
        CcaaMatchWhereSixRun(link, j);
      }
    case Some(p) =>
      CcaaMatchWhereSixRun(link, p);
      forall i | 0 <= i < p ensures !SixRunAt(link, i) {
        CcaaMatchWhereSixRun(link, i);
      }
  }

  // ---------------------------------------------------------------------
  // BOE: re.search(r"id=([A-Za-z0-9\-\._]+)", link)

  /** `id=` followed by at least one id character starts at `i`. */
  predicate IdParamAt(s: string, i: int) {
    0 <= i && i + 4 <= |s| && s[i] == 'i' && s[i + 1] == 'd' && s[i + 2] == '=' && InClass(s[i + 3], IdChar)
  }

  function BoeSearchFrom(s: string, i: nat): (r: Option<nat>)
    requires i <= |s|
    ensures r.Some? ==> i <= r.value && IdParamAt(s, r.value)
    ensures r.Some? ==> forall j :: i <= j < r.value ==> !IdParamAt(s, j)
    ensures r.None? ==> forall j :: i <= j ==> !IdParamAt(s, j)
    decreases |s| - i
  {
    if IdParamAt(s, i) then Some(i)
    else if i == |s| then None
    else BoeSearchFrom(s, i + 1)
  }

  /** `ext[:120]` where `ext` is the value of the first `id=` parameter
      (the longest run of `[A-Za-z0-9._-]` after it), or the whole link. */
  function BoeExternalId(link: string): (r: string)
    ensures |r| <= MaxIdLength
    ensures BoeSearchFrom(link, 0).None? ==> r == Prefix(link, MaxIdLength)
    ensures BoeSearchFrom(link, 0).Some? ==> IdRunAt(link, r, BoeSearchFrom(link, 0).value + 3, IdChar)
  {
    match BoeSearchFrom(link, 0)
    case None => Prefix(link, MaxIdLength)
    case Some(p) =>
      RunSliceIsIdRun(link, p + 3, IdChar);
      Prefix(link[p + 3..p + 3 + RunLen(link, p + 3, IdChar)], MaxIdLength)
  }

  // ---------------------------------------------------------------------
  // PLACSP and TED: link or (title[:32] + str(abs(hash(title+summary)) % 10**8))

  /** Bound of the hash part: `10**8`. */
  const HashModulus: nat := 100000000

  /** The digits of the synthetic id: `abs(h) % 10**8` in decimal. */
  function HashDigits(h: int): (r: string)
    ensures 1 <= |r| <= 8
    ensures forall i :: 0 <= i < |r| ==> IsAsciiDigit(r[i])
  {
    var v := (if h < 0 then -h else h) % HashModulus;
    DecimalLength(v, 8);
    Decimal(v)
  }

  /** The id of an entry: its link, or when the link is empty the first 32
      characters of the title followed by the hash digits; `hash` is
      Python's string hash, salted per process, so it is a parameter. */
  function FallbackId(link: string, title: string, summary: string, hash: string -> int): (r: string)
    ensures link != [] ==> r == link
    ensures link == [] ==> r != [] && |r| <= 40 && StartsWith(r, Prefix(title, 32))
  {
    if link != [] then link
    else
      var p := Prefix(title, 32);
      var r := p + HashDigits(hash(title + summary));
      assert r[..|p|] == p;
      r
  }

  /** The digits after the title part of a synthetic id read back as
      `abs(hash(title + summary)) % 10**8`. */
  lemma SyntheticIdHash(title: string, summary: string, hash: string -> int)
    ensures var r := FallbackId([], title, summary, hash);
            var h := hash(title + summary);
            var d := r[|Prefix(title, 32)|..];
            && (forall i :: 0 <= i < |d| ==> IsAsciiDigit(d[i]))
            && DigitsValue(d) == (if h < 0 then -h else h) % HashModulus
  {
    var h := hash(title + summary);
    var v := (if h < 0 then -h else h) % HashModulus;
    var r := FallbackId([], title, summary, hash);
    assert r[|Prefix(title, 32)|..] == Decimal(v);
    DecimalRoundTrip(v);
  }
}
