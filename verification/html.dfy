/** `strip_html` of the CCAA and BOE readers
    (scraper/scraper_spain_ccaa.py:63-68, scraper/scraper_spain_boe.py:66-71):
    unescape entities, turn `<br>` tags into newlines, replace every other
    tag by a space, collapse whitespace runs into one space, strip. */
module Html {
  import opened Common

  // ---------------------------------------------------------------------
  // html.unescape (a subset of the named and numeric references)

  /** The references recognised, with their replacement character. */
  function EntityAt(s: string): (r: Option<(nat, char)>)
    ensures r.Some? ==> 0 < r.value.0 <= |s| && s[0] == '&'
  {
    if StartsWith(s, "&amp;") then Some((5, '&'))
    else if StartsWith(s, "&lt;") then Some((4, '<'))
    else if StartsWith(s, "&gt;") then Some((4, '>'))
    else if StartsWith(s, "&quot;") then Some((6, '"'))
    else if StartsWith(s, "&apos;") then Some((6, '\''))
    else if StartsWith(s, "&#39;") then Some((5, '\''))
    else if StartsWith(s, "&nbsp;") then Some((6, '\U{A0}'))
    else None
  }

  function Unescape(s: string): (r: string)
    ensures '&' !in s ==> r == s
    decreases |s|
  {
    if s == [] then []
    else match EntityAt(s)
      case Some((n, c)) => [c] + Unescape(s[n..])
      case None => [s[0]] + Unescape(s[1..])
  }

  // ---------------------------------------------------------------------
  // re.sub(r"<br\s*/?>", "\n", s, flags=re.I)

  /** Length of the whitespace run at the front of `s`. */
  function SpaceRun(s: string): (n: nat)
    ensures n <= |s|
    ensures forall k :: 0 <= k < n ==> IsSpace(s[k])
    ensures n < |s| ==> !IsSpace(s[n])
  {
    if s != [] && IsSpace(s[0]) then 1 + SpaceRun(s[1..]) else 0
  }

  // Length of the `<br\s*/?>` match at the front of `s`, 0 when none.
  function BrTagLen(s: string): (n: nat)
    ensures n <= |s|
    ensures n > 0 ==> n >= 4 && s[0] == '<' && s[n - 1] == '>'
    ensures forall k :: 0 <= k < n - 1 ==> s[k] != '>'
  {
    if |s| >= 3 && s[0] == '<' && Lower(s[1..3]) == "br" then
      assert LowerChar(s[1]) == 'b' && LowerChar(s[2]) == 'r';
      var j := 3 + SpaceRun(s[3..]);
      assert forall k :: 3 <= k < j ==> s[k] == s[3..][k - 3] && IsSpace(s[3..][k - 3]);
      if j < |s| && s[j] == '>' then j + 1
      else if j + 1 < |s| && s[j] == '/' && s[j + 1] == '>' then j + 2
      else 0
    else 0
  }

  function ReplaceBr(s: string): (r: string)
    ensures '<' !in s ==> r == s
    decreases |s|
  {
    if s == [] then []
    else
      var n := BrTagLen(s);
      if n > 0 then "\n" + ReplaceBr(s[n..]) else [s[0]] + ReplaceBr(s[1..])
  }

  // ---------------------------------------------------------------------
  // re.sub(r"<[^>]+>", " ", s)

  /** Length of the `<[^>]+>` match at the front of `s`, 0 when none: a `<`,
      at least one character, and the first `>` after it. */
  function TagLen(s: string): (n: nat)
    ensures n <= |s|
    ensures n > 0 ==> n >= 3 && s[0] == '<' && s[n - 1] == '>'
                      && forall k :: 1 <= k < n - 1 ==> s[k] != '>'
  {
    if |s| >= 3 && s[0] == '<' && s[1] != '>' then
      var k := IndexOf(s[1..], '>');
      if k < |s| - 1 then k + 2 else 0
    else 0
  }

  /** No `<[^>]+>` match starts anywhere in `s`. */
  predicate TagFree(s: string) {
    forall i :: 0 <= i <= |s| ==> TagLen(s[i..]) == 0
  }

  /** When no tag starts at the front, the first character is not `<`, or
      it is followed at once by `>`, or no `>` comes after it. */
  lemma NoTagAt(s: string)
    requires s != [] && TagLen(s) == 0
    ensures s[0] != '<' || (|s| >= 2 && s[1] == '>') || '>' !in s[1..]
  {
    if |s| >= 3 && s[0] == '<' && s[1] != '>' {
      var k := IndexOf(s[1..], '>');
      assert k == |s| - 1;
    }
  }

  /** The converse: in each of those cases no tag starts at the front. */
  lemma NoTagFront(s: string)
    requires s == [] || s[0] != '<' || (|s| >= 2 && s[1] == '>') || '>' !in s[1..]
    ensures TagLen(s) == 0
  {
    if |s| >= 3 && s[0] == '<' && s[1] != '>' {
      var k := IndexOf(s[1..], '>');
      assert forall j :: 0 <= j < |s| - 1 ==> s[1..][j] != '>';
    }
  }

  /** A character put in front of tag-free text opens no tag when it is not
      `<`, or when what follows starts with `>` or holds no `>`. */
  lemma TagFreeCons(c: char, rest: string)
    requires TagFree(rest)
    requires c != '<' || (rest != [] && rest[0] == '>') || '>' !in rest
    ensures TagFree([c] + rest)
  {
    var s := [c] + rest;
    assert s[1..] == rest;
    NoTagFront(s);
    forall i | 1 <= i <= |s| ensures TagLen(s[i..]) == 0 {
      assert s[i..] == rest[i - 1..];
    }
    assert s[0..] == s;
  }

  lemma TagFreeSuffix(s: string, n: nat)
    requires TagFree(s) && n <= |s|
    ensures TagFree(s[n..])
  {
    forall i | 0 <= i <= |s| - n ensures TagLen(s[n..][i..]) == 0 {
      assert s[n..][i..] == s[n + i..];
    }
  }

  /** Cutting text short opens no tag. */
  lemma TagLenPrefix(s: string, m: nat)
    requires m <= |s| && TagLen(s) == 0
    ensures TagLen(s[..m]) == 0
  {
    var p := s[..m];
    if p != [] && p[0] == '<' {
      NoTagAt(s);
      if '>' !in s[1..] {
        assert forall k :: 1 <= k < m ==> p[k] == s[1..][k - 1];
        assert '>' !in p[1..];
      }
    }
    NoTagFront(p);
  }

  /** `re.sub(r"<[^>]+>", " ", s)`: every match, taken leftmost first, is
      replaced by one space, so the result holds no match. */
  function ReplaceTags(s: string): (r: string)
    ensures '<' !in s ==> r == s
    ensures '>' !in s ==> r == s
    ensures s != [] && s[0] != '<' ==> r != [] && r[0] == s[0]
    ensures TagFree(r)
    decreases |s|
  {
    if s == [] then
      NoTagFront([]);
      assert TagFree([]);
      []
    else
      var n := TagLen(s);
      if n > 0 then
        var rest := ReplaceTags(s[n..]);
        TagFreeCons(' ', rest);
        " " + rest
      else
        var rest := ReplaceTags(s[1..]);
        NoTagAt(s);
        TagFreeCons(s[0], rest);
        [s[0]] + rest
  }

  // ---------------------------------------------------------------------
  // re.sub(r"\s+", " ", s)

  /** No two whitespace characters are adjacent. */
  predicate NoDoubleSpace(s: string) {
    forall i :: 0 <= i < |s| - 1 ==> !(IsSpace(s[i]) && IsSpace(s[i + 1]))
  }

  /** Every whitespace character is a plain space. */
  predicate OnlyPlainSpaces(s: string) {
    forall i :: 0 <= i < |s| ==> IsSpace(s[i]) ==> s[i] == ' '
  }

  /** The characters of `s` that are not whitespace, in order. */
  function NonSpace(s: string): (r: string)
    ensures |r| <= |s|
  {
    if s == [] then [] else (if IsSpace(s[0]) then [] else [s[0]]) + NonSpace(s[1..])
  }

  function Collapse(s: string): (r: string)
    ensures |r| <= |s| && (r == [] <==> s == [])
    ensures s != [] && !IsSpace(s[0]) ==> r[0] == s[0]
    ensures s != [] && IsSpace(s[0]) ==> r[0] == ' '
    ensures NoDoubleSpace(r) && OnlyPlainSpaces(r)
    ensures NonSpace(r) == NonSpace(s)
    decreases |s|
  {
    if s == [] then []
    else if IsSpace(s[0]) then
      var n := SpaceRun(s);
      var rest := Collapse(s[n..]);
      NonSpaceOfSpaces(s, n);
      " " + rest
    else
      [s[0]] + Collapse(s[1..])
  }

  // ---------------------------------------------------------------------
  // strip_html

  /** The cleaned text neither starts nor ends with whitespace, holds single
      plain spaces only, and contains no tag, not even one that an entity
      reference spelled out. */
  function StripHtml(s: string): (r: string)
    ensures r == [] || (!IsSpace(r[0]) && !IsSpace(r[|r| - 1]))
    ensures NoDoubleSpace(r) && OnlyPlainSpaces(r)
    ensures '\n' !in r
    ensures TagFree(r)
  {
    var t := ReplaceTags(ReplaceBr(Unescape(s)));
    var c := Collapse(t);
    StripKeepsSpacing(c);
    CollapseTagFree(t);
    StripTagFree(c);
    Strip(c)
  }

  /** No `<br>` survives either: every match of the `<br>` pattern is
      also a `<[^>]+>` match. */
  lemma NoBrLeft(s: string)
    ensures forall i :: 0 <= i <= |StripHtml(s)| ==> BrTagLen(StripHtml(s)[i..]) == 0
  {
    var r := StripHtml(s);
    forall i | 0 <= i <= |r| ensures BrTagLen(r[i..]) == 0 {
      if BrTagLen(r[i..]) > 0 { BrIsTag(r[i..]); }
    }
  }

  lemma BrIsTag(s: string)
    requires BrTagLen(s) > 0
    ensures TagLen(s) > 0
  {
    var n := BrTagLen(s);
    assert Lower(s[1..3])[0] == LowerChar(s[1]);
    assert s[1..][n - 2] == '>';
    if TagLen(s) == 0 { NoTagAt(s); }
  }

  /** Collapsing whitespace opens no tag: it keeps every character that is
      not whitespace and never empties a whitespace run. */
  lemma {:induction false} CollapseTagFree(s: string)
    requires TagFree(s)
    ensures TagFree(Collapse(s))
    decreases |s|
  {
    if s == [] {
      NoTagFront([]);
    } else if IsSpace(s[0]) {
      var n := SpaceRun(s);
      TagFreeSuffix(s, n);
      CollapseTagFree(s[n..]);
      TagFreeCons(' ', Collapse(s[n..]));
    } else {
      var c := Collapse(s[1..]);
      TagFreeSuffix(s, 1);
      CollapseTagFree(s[1..]);
      assert s[0..] == s;
      NoTagAt(s);
      if s[0] == '<' && !(|s| >= 2 && s[1] == '>') {
        NonSpaceMembers(s[1..]);
        NonSpaceMembers(c);
      }
      TagFreeCons(s[0], c);
    }
  }

  /** Trimming opens no tag. */
  lemma StripTagFree(c: string)
    requires TagFree(c)
    ensures TagFree(Strip(c))
  {
    var r := Strip(c);
    var i :| 0 <= i <= |c| && StrippedAt(c, r, i);
    SliceTagFree(c, r, i);
  }

  /** Every suffix of a slice is the front of a suffix of the whole. */
  lemma SliceTagFree(c: string, r: string, i: nat)
    requires TagFree(c) && i + |r| <= |c| && r == c[i..i + |r|]
    ensures TagFree(r)
  {
    forall k | 0 <= k <= |r| ensures TagLen(r[k..]) == 0 {
      assert r[k..] == c[i + k..][..|r| - k];
      TagLenPrefix(c[i + k..], |r| - k);
    }
  }

  /** Stripping a collapsed string keeps it collapsed, so it holds no
      newline. */
  lemma StripKeepsSpacing(c: string)
    requires NoDoubleSpace(c) && OnlyPlainSpaces(c)
    ensures NoDoubleSpace(Strip(c)) && OnlyPlainSpaces(Strip(c))
    ensures '\n' !in Strip(c)
  {
    var r := Strip(c);
    var i :| 0 <= i <= |c| && StrippedAt(c, r, i);
    forall k | 0 <= k < |r| ensures r[k] == c[i + k] && (IsSpace(r[k]) ==> r[k] == ' ') {
      assert r[k] == c[i + k];
    }
    forall k | 0 <= k < |r| - 1 ensures !(IsSpace(r[k]) && IsSpace(r[k + 1])) {
      assert r[k] == c[i + k] && r[k + 1] == c[i + k + 1];
    }
    assert IsSpace('\n');
  }

  // ---------------------------------------------------------------------
  // Lemmas about the non-space content

  lemma {:induction false} NonSpaceAppend(a: string, b: string)
    ensures NonSpace(a + b) == NonSpace(a) + NonSpace(b)
  {
    if a == [] {
      assert a + b == b;
    } else {
      assert (a + b)[0] == a[0];
      assert (a + b)[1..] == a[1..] + b;
      NonSpaceAppend(a[1..], b);
    }
  }

  /** The characters of `NonSpace(s)` are those of `s` that are not
      whitespace. */
  lemma {:induction false} NonSpaceMembers(s: string)
    ensures forall c :: c in NonSpace(s) <==> c in s && !IsSpace(c)
  {
    if s != [] {
      NonSpaceMembers(s[1..]);
      assert s == [s[0]] + s[1..];
    }
  }

  /** Dropping a leading whitespace run leaves the non-space content alone. */
  lemma {:induction false} NonSpaceOfSpaces(s: string, n: nat)
    requires n <= |s|
    requires forall k :: 0 <= k < n ==> IsSpace(s[k])
    ensures NonSpace(s) == NonSpace(s[n..])
  {
    if n > 0 {
      assert s[1..][n - 1..] == s[n..];
      NonSpaceOfSpaces(s[1..], n - 1);
    }
  }

  lemma {:induction false} NonSpaceAllSpaces(s: string)
    requires forall k :: 0 <= k < |s| ==> IsSpace(s[k])
    ensures NonSpace(s) == []
  {
    if s != [] { NonSpaceAllSpaces(s[1..]); }
  }

  /** Stripping only removes whitespace. */
  lemma StripKeepsNonSpace(s: string)
    ensures NonSpace(Strip(s)) == NonSpace(s)
  {
    var r := Strip(s);
    var i :| 0 <= i <= |s| && StrippedAt(s, r, i);
    SliceKeepsNonSpace(s, r, i);
  }

  /** A slice with only whitespace around it has all of the non-space
      content. */
  lemma SliceKeepsNonSpace(s: string, r: string, i: int)
    requires StrippedAt(s, r, i)
    ensures NonSpace(r) == NonSpace(s)
  {
    var a, b := s[..i], s[i + |r|..];
    SliceThree(s, i, i + |r|);
    forall k | 0 <= k < |a| ensures IsSpace(a[k]) {
      assert a[k] == s[k];
    }
    forall k | 0 <= k < |b| ensures IsSpace(b[k]) {
      assert b[k] == s[i + |r| + k];
    }
    NonSpaceAround(a, r, b);
  }

  lemma SliceThree(s: string, i: nat, j: nat)
    requires i <= j <= |s|
    ensures s[..i] + s[i..j] + s[j..] == s
  {
  }

  /** Whitespace on both sides adds nothing to the non-space content. */
  lemma NonSpaceAround(a: string, r: string, b: string)
    requires forall k :: 0 <= k < |a| ==> IsSpace(a[k])
    requires forall k :: 0 <= k < |b| ==> IsSpace(b[k])
    ensures NonSpace(a + r + b) == NonSpace(r)
  {
    NonSpaceAppend(a + r, b);
    NonSpaceAppend(a, r);
    NonSpaceAllSpaces(a);
    NonSpaceAllSpaces(b);
  }

  // ---------------------------------------------------------------------
  // What collapsing does to a whitespace run

  /** The leading whitespace run of `x` is that of `x + y` when it ends
      inside `x` or `y` does not go on with whitespace. */
  lemma {:induction false} SpaceRunAppend(x: string, y: string)
    requires SpaceRun(x) < |x| || y == [] || !IsSpace(y[0])
    ensures SpaceRun(x + y) == SpaceRun(x)
  {
    if x == [] {
      assert x + y == y;
    } else if IsSpace(x[0]) {
      assert (x + y)[1..] == x[1..] + y;
      SpaceRunAppend(x[1..], y);
    }
  }

  /** `re.sub(r"\s+", " ")` acts on two pieces separately when they do not
      meet inside a whitespace run. */
  lemma CollapseStep(s: string)
    requires s != []
    ensures IsSpace(s[0]) ==> Collapse(s) == " " + Collapse(s[SpaceRun(s)..])
    ensures !IsSpace(s[0]) ==> Collapse(s) == [s[0]] + Collapse(s[1..])
  {
  }

  lemma {:induction false} CollapseAppend(x: string, y: string)
    requires x == [] || y == [] || !IsSpace(x[|x| - 1]) || !IsSpace(y[0])
    ensures Collapse(x + y) == Collapse(x) + Collapse(y)
    decreases |x|
  {
    if x == [] {
      assert x + y == y;
    } else if IsSpace(x[0]) {
      var n := SpaceRun(x);
      assert n < |x| ==> x[n..][|x| - n - 1] == x[|x| - 1];
      CollapseAppend(x[n..], y);
      CollapseAppendRun(x, y);
    } else {
      assert |x| > 1 ==> x[1..][|x| - 2] == x[|x| - 1];
      CollapseAppend(x[1..], y);
      CollapseAppendChar(x, y);
    }
  }

  /** The step of `CollapseAppend` past a leading whitespace run. */
  lemma CollapseAppendRun(x: string, y: string)
    requires x != [] && IsSpace(x[0])
    requires SpaceRun(x) < |x| || y == [] || !IsSpace(y[0])
    requires Collapse(x[SpaceRun(x)..] + y) == Collapse(x[SpaceRun(x)..]) + Collapse(y)
    ensures Collapse(x + y) == Collapse(x) + Collapse(y)
  {
    var s, n := x + y, SpaceRun(x);
    SpaceRunAppend(x, y);
    DropAppend(x, y, n);
    CollapseStep(s);
    CollapseStep(x);
    ConsAssoc(" ", Collapse(x[n..]), Collapse(y));
  }

  /** The step of `CollapseAppend` past a character that is not
      whitespace. */
  lemma CollapseAppendChar(x: string, y: string)
    requires x != [] && !IsSpace(x[0])
    requires Collapse(x[1..] + y) == Collapse(x[1..]) + Collapse(y)
    ensures Collapse(x + y) == Collapse(x) + Collapse(y)
  {
    var s := x + y;
    DropAppend(x, y, 1);
    CollapseStep(s);
    CollapseStep(x);
    ConsAssoc([x[0]], Collapse(x[1..]), Collapse(y));
  }

  /** A whitespace run of any length and kind becomes one plain space. */
  lemma CollapseSpaces(w: string)
    requires w != [] && forall k :: 0 <= k < |w| ==> IsSpace(w[k])
    ensures Collapse(w) == " "
  {
    assert SpaceRun(w) == |w|;
  }

  /** Between two characters that are not whitespace, a whitespace run
      becomes exactly one space, and the two sides are collapsed on their
      own. */
  lemma CollapseRun(a: string, w: string, b: string)
    requires a == [] || !IsSpace(a[|a| - 1])
    requires w != [] && forall k :: 0 <= k < |w| ==> IsSpace(w[k])
    requires b == [] || !IsSpace(b[0])
    ensures Collapse(a + w + b) == Collapse(a) + " " + Collapse(b)
  {
    CollapseAppend(w, b);
    CollapseSpaces(w);
    ConsAssoc(a, w, b);
    CollapseAppend(a, w + b);
    ConsAssoc(Collapse(a), " ", Collapse(b));
  }

  /** Text without whitespace is left as it is. */
  lemma {:induction false} CollapseNoSpace(s: string)
    requires forall k :: 0 <= k < |s| ==> !IsSpace(s[k])
    ensures Collapse(s) == s
  {
    if s != [] {
      CollapseNoSpace(s[1..]);
    }
  }

  /** Collapsing looks only at which characters are whitespace, not at
      which whitespace they are. */
  lemma {:induction false} CollapseSameSpacing(x: string, y: string)
    requires |x| == |y|
    requires forall k :: 0 <= k < |x| ==> IsSpace(x[k]) == IsSpace(y[k])
    requires forall k :: 0 <= k < |x| && !IsSpace(x[k]) ==> x[k] == y[k]
    ensures Collapse(x) == Collapse(y)
    decreases |x|
  {
    if x != [] {
      CollapseStep(x);
      CollapseStep(y);
      if IsSpace(x[0]) {
        SpaceRunSame(x, y);
        SameSpacingDrop(x, y, SpaceRun(x));
        CollapseSameSpacing(x[SpaceRun(x)..], y[SpaceRun(x)..]);
      } else {
        SameSpacingDrop(x, y, 1);
        CollapseSameSpacing(x[1..], y[1..]);
      }
    }
  }

  /** Texts with whitespace in the same places start with runs of the same
      length. */
  lemma SpaceRunSame(x: string, y: string)
    requires |x| == |y|
    requires forall k :: 0 <= k < |x| ==> IsSpace(x[k]) == IsSpace(y[k])
    ensures SpaceRun(x) == SpaceRun(y)
  {
    var n, m := SpaceRun(x), SpaceRun(y);
    assert n < |x| ==> !IsSpace(y[n]);
    assert m < |y| ==> !IsSpace(x[m]);
  }

  /** Agreeing on where the whitespace is, and on everything else, carries
      over to the suffixes. */
  lemma SameSpacingDrop(x: string, y: string, n: nat)
    requires |x| == |y| && n <= |x|
    requires forall k :: 0 <= k < |x| ==> IsSpace(x[k]) == IsSpace(y[k])
    requires forall k :: 0 <= k < |x| && !IsSpace(x[k]) ==> x[k] == y[k]
    ensures |x[n..]| == |y[n..]|
    ensures forall k :: 0 <= k < |x[n..]| ==> IsSpace(x[n..][k]) == IsSpace(y[n..][k])
    ensures forall k :: 0 <= k < |x[n..]| && !IsSpace(x[n..][k]) ==> x[n..][k] == y[n..][k]
  {
    assert forall k :: 0 <= k < |x[n..]| ==> x[n..][k] == x[n + k] && y[n..][k] == y[n + k];
  }

  // ---------------------------------------------------------------------
  // What cleaning keeps

  /** A character that starts no reference, `<br>` or tag is copied as it
      is by each of the three replacements. */
  lemma CopiedStep(s: string)
    requires s != []
    ensures s[0] != '&' ==> Unescape(s) == [s[0]] + Unescape(s[1..])
    ensures s[0] != '<' ==> ReplaceBr(s) == [s[0]] + ReplaceBr(s[1..])
    ensures s[0] != '<' ==> ReplaceTags(s) == [s[0]] + ReplaceTags(s[1..])
  {
  }

  lemma DropAppend(x: string, y: string, n: nat)
    requires n <= |x|
    ensures (x + y)[n..] == x[n..] + y
    ensures n < |x| ==> (x + y)[n] == x[n]
  {
  }

  lemma ConsAssoc(h: string, c: string, d: string)
    ensures h + (c + d) == (h + c) + d
  {
  }

  /** Putting back the first element of `a` in front of `a[1..] + b`. */
  lemma SeqCons(a: string, b: string)
    requires a != []
    ensures [a[0]] + (a[1..] + b) == a + b
  {
    assert [a[0]] + a[1..] == a;
  }

  lemma {:induction false} UnescapeAppend(a: string, b: string)
    requires '&' !in a
    ensures Unescape(a + b) == a + Unescape(b)
  {
    if a == [] {
      assert a + b == b;
    } else {
      var s := a + b;
      assert s[0] == a[0] && s[1..] == a[1..] + b;
      CopiedStep(s);
      UnescapeAppend(a[1..], b);
      SeqCons(a, Unescape(b));
    }
  }

  lemma {:induction false} ReplaceBrAppend(a: string, b: string)
    requires '<' !in a
    ensures ReplaceBr(a + b) == a + ReplaceBr(b)
  {
    if a == [] {
      assert a + b == b;
    } else {
      var s := a + b;
      assert s[0] == a[0] && s[1..] == a[1..] + b;
      CopiedStep(s);
      ReplaceBrAppend(a[1..], b);
      SeqCons(a, ReplaceBr(b));
    }
  }

  lemma {:induction false} ReplaceTagsAppend(a: string, b: string)
    requires '<' !in a
    ensures ReplaceTags(a + b) == a + ReplaceTags(b)
  {
    if a == [] {
      assert a + b == b;
    } else {
      var s := a + b;
      assert s[0] == a[0] && s[1..] == a[1..] + b;
      CopiedStep(s);
      ReplaceTagsAppend(a[1..], b);
      SeqCons(a, ReplaceTags(b));
    }
  }

  /** The pieces of `<t>` followed by `b`. */
  lemma TagParts(t: string, b: string)
    ensures var u := "<" + t + ">" + b;
            && |u| == |t| + 2 + |b| && u[0] == '<' && u[|t| + 1] == '>'
            && u[1..] == t + (">" + b) && u[|t| + 2..] == b
            && (forall k :: 1 <= k <= |t| ==> u[k] == t[k - 1])
  {
  }

  /** `a` followed by `<t>` and then `b`, grouped as `a` and the rest. */
  lemma TagRegroup(a: string, t: string, b: string)
    ensures a + "<" + t + ">" + b == a + ("<" + t + ">" + b)
  {
  }

  /** One step of `ReplaceBr` and of `ReplaceTags` at the front. */
  lemma ReplaceStep(u: string)
    requires u != []
    ensures BrTagLen(u) == 0 ==> ReplaceBr(u) == [u[0]] + ReplaceBr(u[1..])
    ensures BrTagLen(u) > 0 ==> ReplaceBr(u) == "\n" + ReplaceBr(u[BrTagLen(u)..])
    ensures TagLen(u) > 0 ==> ReplaceTags(u) == " " + ReplaceTags(u[TagLen(u)..])
  {
  }

  /** `<t>` with no `<` or `>` inside is one whole tag, and a `<br>` match
      there, if any, is the same whole tag. */
  lemma TagSpan(t: string, b: string)
    requires t != [] && '<' !in t && '>' !in t
    ensures TagLen("<" + t + ">" + b) == |t| + 2
    ensures BrTagLen("<" + t + ">" + b) in {0, |t| + 2}
  {
    var u := "<" + t + ">" + b;
    TagParts(t, b);
    var k := IndexOf(u[1..], '>');
    assert forall j :: 1 <= j <= |t| ==> u[j] != '>';
    assert forall j :: 0 <= j < |t| ==> u[1..][j] == u[j + 1];
    assert u[1..][|t|] == '>';
  }

  /** `ReplaceBr` on one tag followed by plain text. */
  lemma BrOnTag(t: string, b: string)
    requires t != [] && '<' !in t && '>' !in t && '<' !in b
    ensures var u := "<" + t + ">" + b;
            ReplaceBr(u) == (if BrTagLen(u) > 0 then "\n" + b else u)
  {
    var u := "<" + t + ">" + b;
    TagParts(t, b);
    TagSpan(t, b);
    ReplaceStep(u);
    if BrTagLen(u) == 0 {
      assert '<' !in u[1..];
      SeqCons(u, []);
      assert u + [] == u;
    }
  }

  /** The three replacements in front of the collapse, on one tag between
      two stretches of plain text: the tag becomes a newline (a `<br>`) or a
      space. */
  lemma TagReplaced(a: string, t: string, b: string)
    requires '<' !in a && '&' !in a && '<' !in b && '&' !in b
    requires t != [] && '<' !in t && '>' !in t && '&' !in t
    ensures var r := ReplaceTags(ReplaceBr(Unescape(a + "<" + t + ">" + b)));
            r == a + "\n" + b || r == a + " " + b
  {
    var u := "<" + t + ">" + b;
    TagRegroup(a, t, b);
    assert '&' !in a + u;
    ReplaceBrAppend(a, u);
    BrOnTag(t, b);
    TagSpan(t, b);
    TagParts(t, b);
    if BrTagLen(u) > 0 {
      ConsAssoc(a, "\n", b);
      assert '<' !in a + ("\n" + b);
    } else {
      ReplaceTagsAppend(a, u);
      ReplaceStep(u);
      ConsAssoc(a, " ", b);
    }
  }

  /** A tag, `<br>` or any other, between two stretches of plain text
      becomes a single space between them; the text on both sides is
      kept. */
  lemma TagBecomesSpace(a: string, t: string, b: string)
    requires '<' !in a && '&' !in a && '<' !in b && '&' !in b
    requires t != [] && '<' !in t && '>' !in t && '&' !in t
    ensures StripHtml(a + "<" + t + ">" + b) == Strip(Collapse(a + " " + b))
  {
    TagReplaced(a, t, b);
    var x := ReplaceTags(ReplaceBr(Unescape(a + "<" + t + ">" + b)));
    if x == a + "\n" + b {
      SameButOne(a, '\n', ' ', b);
      CollapseSameSpacing(x, a + " " + b);
    }
  }

  /** Two strings differing in one whitespace character. */
  lemma SameButOne(a: string, c: char, d: char, b: string)
    requires IsSpace(c) && IsSpace(d)
    ensures var x, y := a + [c] + b, a + [d] + b;
            && |x| == |y|
            && (forall k :: 0 <= k < |x| ==> IsSpace(x[k]) == IsSpace(y[k]))
            && (forall k :: 0 <= k < |x| && !IsSpace(x[k]) ==> x[k] == y[k])
  {
  }

  /** A recognised reference at the front is replaced by its character. */
  lemma UnescapeRef(e: string, c: char, b: string)
    requires EntityAt(e + b) == Some((|e|, c))
    ensures Unescape(e + b) == [c] + Unescape(b)
  {
    DropAppend(e, b, |e|);
  }

  lemma RefAmp(b: string)
    ensures EntityAt("&amp;" + b) == Some((5, '&'))
  {
    assert ("&amp;" + b)[..5] == "&amp;";
  }

  lemma RefLt(b: string)
    ensures EntityAt("&lt;" + b) == Some((4, '<'))
  {
    var e := "&lt;" + b;
    assert e[1] == 'l';
    assert !StartsWith(e, "&amp;") by {
      if |e| >= 5 { assert e[..5][1] == 'l'; }
    }
    assert e[..4] == "&lt;";
  }

  lemma RefGt(b: string)
    ensures EntityAt("&gt;" + b) == Some((4, '>'))
  {
    var e := "&gt;" + b;
    assert e[1] == 'g';
    assert !StartsWith(e, "&amp;") by {
      if |e| >= 5 { assert e[..5][1] == 'g'; }
    }
    assert !StartsWith(e, "&lt;") by {
      assert e[..4][1] == 'g';
    }
    assert e[..4] == "&gt;";
  }

  /** `&amp;` in plain text is decoded to `&`. */
  lemma AmpersandDecoded(a: string, b: string)
    requires '<' !in a && '&' !in a && '<' !in b && '&' !in b
    ensures StripHtml(a + "&amp;" + b) == Strip(Collapse(a + "&" + b))
  {
    var e := "&amp;" + b;
    ConsAssoc(a, "&amp;", b);
    UnescapeAppend(a, e);
    RefAmp(b);
    UnescapeRef("&amp;", '&', b);
    ConsAssoc(a, "&", b);
    assert '<' !in a + "&" + b;
  }

  /** `a`, then `<t>` written with references, then `b`, grouped as `a` and
      the rest. */
  lemma EscapedRegroup(a: string, t: string, b: string)
    ensures a + "&lt;" + t + "&gt;" + b == a + ("&lt;" + (t + ("&gt;" + b)))
    ensures "<" + (t + (">" + b)) == "<" + t + ">" + b
  {
  }

  /** Markup written with `&lt;` and `&gt;` is decoded and then removed like
      a tag, as `html.unescape` runs before the tag pattern. */
  lemma EscapedTagDropped(a: string, t: string, b: string)
    requires '<' !in a && '&' !in a && '<' !in b && '&' !in b
    requires t != [] && '<' !in t && '>' !in t && '&' !in t
    ensures StripHtml(a + "&lt;" + t + "&gt;" + b) == Strip(Collapse(a + " " + b))
  {
    var g := "&gt;" + b;
    RefGt(b);
    UnescapeRef("&gt;", '>', b);
    UnescapeAppend(t, g);
    var l := "&lt;" + (t + g);
    RefLt(t + g);
    UnescapeRef("&lt;", '<', t + g);
    EscapedRegroup(a, t, b);
    UnescapeAppend(a, l);
    var p := a + "<" + t + ">" + b;
    TagRegroup(a, t, b);
    assert Unescape(a + "&lt;" + t + "&gt;" + b) == p;
    assert '&' !in p;
    assert Unescape(p) == p;
    TagBecomesSpace(a, t, b);
  }

  /** `re.sub` makes one pass: a `<br>` split by another one is put back
      together by the replacement and stays in the output. */
  lemma BrReplacedOnce()
    ensures ReplaceBr("<br<br>>") == "<br\n>"
    ensures BrTagLen("<br\n>") == 5
  {
    BrFactsOuter();
    BrFactsInner();
    var r4 := ReplaceBr("<br>>");
    ReplaceStep("<br>>");
    assert "<br>>"[4..] == ">";
    assert ReplaceBr(">") == ">";
    assert r4 == "\n" + ">";
    var r3 := ReplaceBr("r<br>>");
    ReplaceStep("r<br>>");
    assert "r<br>>"[1..] == "<br>>";
    assert r3 == "r" + r4;
    var r2 := ReplaceBr("br<br>>");
    ReplaceStep("br<br>>");
    assert "br<br>>"[1..] == "r<br>>";
    assert r2 == "b" + r3;
    var r1 := ReplaceBr("<br<br>>");
    ReplaceStep("<br<br>>");
    assert "<br<br>>"[1..] == "br<br>>";
    assert r1 == "<" + r2;
    BrSpelled();
  }

  lemma BrSpelled()
    ensures "<" + ("b" + ("r" + ("\n" + ">"))) == "<br\n>"
  {
    var t := "<br\n>";
    assert |t| == 5 && t[0] == '<' && t[1] == 'b' && t[2] == 'r' && t[3] == '\n' && t[4] == '>';
  }

  lemma BrFactsOuter()
    ensures BrTagLen("<br<br>>") == 0
    ensures BrTagLen("br<br>>") == 0 && BrTagLen("r<br>>") == 0
  {
    assert Lower("br") == "br";
    assert "<br<br>>"[1..3] == "br" && "<br<br>>"[3..] == "<br>>";
    assert SpaceRun("<br>>") == 0;
  }

  lemma BrFactsInner()
    ensures BrTagLen("<br>>") == 4
    ensures BrTagLen("<br\n>") == 5
  {
    assert Lower("br") == "br";
    assert "<br>>"[1..3] == "br" && "<br>>"[3..] == ">>";
    assert SpaceRun(">>") == 0 && SpaceRun(">") == 0;
    assert "<br\n>"[1..3] == "br" && "<br\n>"[3..] == "\n>";
    assert "\n>"[1..] == ">";
    assert SpaceRun("\n>") == 1;
  }

  /** On text with no markup and no character references, `strip_html`
      only normalises whitespace: it keeps every other character, in order. */
  lemma PlainTextKept(s: string)
    requires '<' !in s && '&' !in s
    ensures StripHtml(s) == Strip(Collapse(s))
    ensures NonSpace(StripHtml(s)) == NonSpace(s)
  {
    StripKeepsNonSpace(Collapse(s));
  }
}
