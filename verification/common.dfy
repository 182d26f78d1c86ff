/** Shared vocabulary of the feed scrapers: optional values, escaped
    exceptions, bytes, Python's character classes and the handful of
    `str` operations the scripts rely on (strip, slicing, split, replace,
    `str(int)`). */
module Common {

  /** Python's `None`-or-value. */
  datatype Option<+T> = None | Some(value: T)

  /** The result of a call during which a Python exception may escape
      (it is not caught inside the call). */
  datatype Outcome<+T> = Done(value: T) | Raised

  newtype byte = b: int | 0 <= b < 256

  /** Applies `f` to every element in order; the first exception ends the
      loop and escapes. */
  function MapOutcome<A, B>(f: A -> Outcome<B>, xs: seq<A>): (r: Outcome<seq<B>>)
    ensures r.Raised? <==> exists i :: 0 <= i < |xs| && f(xs[i]).Raised?
    ensures r.Done? ==> |r.value| == |xs| && forall i :: 0 <= i < |xs| ==> f(xs[i]) == Done(r.value[i])
  {
    if xs == [] then Done([])
    else
      match f(xs[0])
      case Raised => Raised
      case Done(x) =>
        match MapOutcome(f, xs[1..])
        case Raised =>
          var i :| 0 <= i < |xs[1..]| && f(xs[1..][i]).Raised?;
          assert f(xs[i + 1]).Raised?;
          Raised
        case Done(ys) =>
          assert forall i :: 1 <= i < |xs| ==> xs[i] == xs[1..][i - 1];
          Done([x] + ys)
  }

  // ---------------------------------------------------------------------
  // Character classes

  /** Python's whitespace class (`str.isspace`, and `\s` of `re` on `str`). */
  predicate IsSpace(c: char) {
    || c == ' ' || c == '\t' || c == '\n' || c == '\r'
    || c == '\U{0B}' || c == '\U{0C}'
    || ('\U{1C}' <= c <= '\U{1F}')
    || c == '\U{85}' || c == '\U{A0}' || c == '\U{1680}'
    || ('\U{2000}' <= c <= '\U{200A}')
    || c == '\U{2028}' || c == '\U{2029}' || c == '\U{202F}'
    || c == '\U{205F}' || c == '\U{3000}'
  }

  predicate IsAsciiDigit(c: char) { '0' <= c <= '9' }

  predicate IsAsciiLetter(c: char) { ('A' <= c <= 'Z') || ('a' <= c <= 'z') }

  predicate IsAsciiAlnum(c: char) { IsAsciiLetter(c) || IsAsciiDigit(c) }

  /** ASCII lower-casing, the exact effect of `bytes.lower()` and, for the
      comparisons the scripts make, of `str.lower()`. */
  function LowerChar(c: char): (r: char)
    ensures 'A' <= c <= 'Z' ==> 'a' <= r <= 'z'
    ensures !('A' <= c <= 'Z') ==> r == c
  {
    if 'A' <= c <= 'Z' then (c as int + 32) as char else c
  }

  function Lower(s: string): (r: string)
    ensures |r| == |s|
    ensures forall i :: 0 <= i < |s| ==> r[i] == LowerChar(s[i])
  {
    seq(|s|, i requires 0 <= i < |s| => LowerChar(s[i]))
  }

  /** `a or b` on two strings. */
  function Or(a: string, b: string): (r: string)
    ensures r == [] <==> a == [] && b == []
    ensures a != [] ==> r == a
    ensures a == [] ==> r == b
  {
    if a != [] then a else b
  }

  predicate StartsWith(s: string, p: string) {
    |p| <= |s| && s[..|p|] == p
  }

  predicate EndsWith(s: string, p: string) {
    |p| <= |s| && s[|s| - |p|..] == p
  }

  // ---------------------------------------------------------------------
  // str.strip()

  function TrimLeft(s: string): (r: string)
    ensures |r| <= |s| && r == s[|s| - |r|..]
    ensures r == [] || !IsSpace(r[0])
    ensures forall i :: 0 <= i < |s| - |r| ==> IsSpace(s[i])
  {
    if |s| > 0 && IsSpace(s[0]) then TrimLeft(s[1..]) else s
  }

  function TrimRight(s: string): (r: string)
    ensures |r| <= |s| && r == s[..|r|]
    ensures r == [] || !IsSpace(r[|r| - 1])
    ensures forall i :: |r| <= i < |s| ==> IsSpace(s[i])
  {
    if |s| > 0 && IsSpace(s[|s| - 1]) then TrimRight(s[..|s| - 1]) else s
  }

  /** A prefix of whitespace cut from the left, then a suffix of whitespace
      cut from what remains, leaves a stripped slice of `s`. */
  lemma TrimmedIsStripped(s: string, left: string, r: string)
    requires |left| <= |s| && left == s[|s| - |left|..]
    requires forall k :: 0 <= k < |s| - |left| ==> IsSpace(s[k])
    requires left == [] || !IsSpace(left[0])
    requires |r| <= |left| && r == left[..|r|]
    requires forall k :: |r| <= k < |left| ==> IsSpace(left[k])
    requires r == [] || !IsSpace(r[|r| - 1])
    ensures StrippedAt(s, r, |s| - |left|)
    ensures StrippedOf(s, r)
  {
    var i := |s| - |left|;
    assert r == s[i..i + |r|];
    forall k | i + |r| <= k < |s|
      ensures IsSpace(s[k])
    {
      assert s[k] == left[k - i];
    }
    if r != [] {
      assert r[0] == left[0];
    }
    assert StrippedAt(s, r, i);
  }

  /** `str.strip()` with no argument: the longest slice of `s` that neither
      starts nor ends with whitespace, everything cut away being whitespace. */
  function Strip(s: string): (r: string)
    ensures StrippedOf(s, r)
  {
    TrimmedIsStripped(s, TrimLeft(s), TrimRight(TrimLeft(s)));
    TrimRight(TrimLeft(s))
  }

  /** Text that neither starts nor ends with whitespace is left alone. */
  lemma StripUnchanged(s: string)
    requires s != [] && !IsSpace(s[0]) && !IsSpace(s[|s| - 1])
    ensures Strip(s) == s
  {
    assert TrimLeft(s) == s;
    assert TrimRight(s) == s;
  }

  /** `r` is what stripping `s` leaves: a slice of `s` with only
      whitespace around it, which neither starts nor ends with whitespace. */
  predicate StrippedOf(s: string, r: string) {
    && (exists i :: 0 <= i <= |s| && StrippedAt(s, r, i))
    && (r == [] || (!IsSpace(r[0]) && !IsSpace(r[|r| - 1])))
  }

  /** At most one string is what stripping `s` leaves, so `StrippedOf`
      pins the result of `str.strip()`. */
  lemma StripUnique(s: string, a: string, b: string)
    requires StrippedOf(s, a) && StrippedOf(s, b)
    ensures a == b
  {
    var i :| 0 <= i <= |s| && StrippedAt(s, a, i);
    var j :| 0 <= j <= |s| && StrippedAt(s, b, j);
    if a != [] && b != [] {
      assert s[i] == a[0] && s[j] == b[0];
      assert i == j;
      assert s[i + |a| - 1] == a[|a| - 1] && s[j + |b| - 1] == b[|b| - 1];
      assert |a| == |b|;
    }
  }

  /** `r` is the slice of `s` starting at `i`, and only whitespace lies
      around it. */
  predicate StrippedAt(s: string, r: string, i: int) {
    && 0 <= i <= |s| - |r| && r == s[i..i + |r|]
    && (forall k :: 0 <= k < i ==> IsSpace(s[k]))
    && (forall k :: i + |r| <= k < |s| ==> IsSpace(s[k]))
  }

  // ---------------------------------------------------------------------
  // Slicing

  /** `s[:n]` for a non-negative `n`. */
  function Prefix<T>(s: seq<T>, n: nat): (r: seq<T>)
    ensures |r| <= n && |r| <= |s|
    ensures |r| == if n <= |s| then n else |s|
    ensures r == s[..|r|]
  {
    if n <= |s| then s[..n] else s
  }

  /** `s[:n]` for any integer `n`: a negative bound counts from the end. */
  function PySlicePrefix<T>(s: seq<T>, n: int): (r: seq<T>)
    ensures 0 <= n ==> |r| == if n <= |s| then n else |s|
    ensures n < 0 ==> |r| == if -n <= |s| then |s| + n else 0
    ensures |r| <= |s| && r == s[..|r|]
  {
    if 0 <= n then Prefix(s, n)
    else if -n <= |s| then s[..|s| + n]
    else []
  }

  // ---------------------------------------------------------------------
  // Subsequences

  /** `a` can be obtained from `b` by deleting elements. */
  predicate IsSubsequence<T(==)>(a: seq<T>, b: seq<T>)
    decreases |b|
  {
    if a == [] then true
    else if b == [] then false
    else if a[0] == b[0] then IsSubsequence(a[1..], b[1..])
    else IsSubsequence(a, b[1..])
  }

  lemma {:induction false} SubsequenceDrop<T>(a: seq<T>, b: seq<T>)
    requires b != [] && IsSubsequence(a, b[1..])
    ensures IsSubsequence(a, b)
    decreases |a| + |b|
  {
    if a != [] && a[0] == b[0] {
      if |b| > 1 {
        SubsequenceTail(a, b[1..]);
      }
    }
  }

  lemma {:induction false} SubsequenceTail<T>(a: seq<T>, b: seq<T>)
    requires a != [] && IsSubsequence(a, b)
    ensures IsSubsequence(a[1..], b)
    decreases |a| + |b|
  {
    if b != [] {
      if a[0] == b[0] {
        if a[1..] != [] { SubsequenceDrop(a[1..], b); }
      } else {
        SubsequenceTail(a, b[1..]);
        if a[1..] != [] { SubsequenceDrop(a[1..], b); }
      }
    }
  }

  /** A prefix of a subsequence of `b` is a subsequence of `b`. */
  lemma {:induction false} SubsequencePrefix<T>(a: seq<T>, b: seq<T>, k: nat)
    requires k <= |a| && IsSubsequence(a, b)
    ensures IsSubsequence(a[..k], b)
    decreases |b|
  {
    if k > 0 {
      if a[0] == b[0] {
        SubsequencePrefix(a[1..], b[1..], k - 1);
        assert a[..k][1..] == a[1..][..k - 1];
      } else {
        SubsequencePrefix(a, b[1..], k);
      }
    }
  }

  // ---------------------------------------------------------------------
  // Totals

  /** `sum(xs)`. */
  function Sum(xs: seq<nat>): nat {
    if xs == [] then 0 else xs[0] + Sum(xs[1..])
  }

  /** Summing distributes over concatenation. */
  lemma {:induction false} SumAppend(a: seq<nat>, b: seq<nat>)
    ensures Sum(a + b) == Sum(a) + Sum(b)
  {
    if a == [] {
      assert a + b == b;
    } else {
      assert (a + b)[1..] == a[1..] + b;
      SumAppend(a[1..], b);
    }
  }

  /** What each step of a loop adds: its value when it finished, 0 when
      it raised. */
  function DoneValues(xs: seq<Outcome<nat>>): (r: seq<nat>)
    ensures |r| == |xs| && forall i :: 0 <= i < |xs| && xs[i].Done? ==> r[i] == xs[i].value
  {
    seq(|xs|, i requires 0 <= i < |xs| => match xs[i] case Done(n) => n case Raised => 0)
  }

  /** A loop that adds up what its steps return; the first exception ends
      it and escapes. */
  function SumOutcomes(xs: seq<Outcome<nat>>): (r: Outcome<nat>)
    ensures r.Raised? <==> exists i :: 0 <= i < |xs| && xs[i].Raised?
    ensures r.Done? ==> r.value == Sum(DoneValues(xs))
  {
    if xs == [] then Done(0)
    else
      match xs[0]
      case Raised => Raised
      case Done(n) =>
        assert DoneValues(xs)[1..] == DoneValues(xs[1..]);
        match SumOutcomes(xs[1..])
        case Raised =>
          var i :| 0 <= i < |xs[1..]| && xs[1..][i].Raised?;
          assert xs[i + 1] == xs[1..][i];
          Raised
        case Done(m) =>
          assert forall i :: 1 <= i < |xs| ==> xs[i] == xs[1..][i - 1];
          Done(n + m)
  }

  /** A step that finishes with nothing changes neither whether the loop
      raises nor its total. */
  lemma SumOutcomesSkip(xs: seq<Outcome<nat>>)
    requires xs != [] && xs[0] == Done(0)
    ensures SumOutcomes(xs) == SumOutcomes(xs[1..])
  {
  }

  /** A loop whose every step finishes with nothing totals nothing. */
  lemma SumOutcomesAllZero(xs: seq<Outcome<nat>>)
    requires forall i :: 0 <= i < |xs| ==> xs[i] == Done(0)
    ensures SumOutcomes(xs) == Done(0)
  {
    SumZero(DoneValues(xs));
  }

  /** A sum of terms each at most `m` is at most `|xs| * m`. */
  lemma {:induction false} SumAtMost(xs: seq<nat>, m: nat)
    requires forall i :: 0 <= i < |xs| ==> xs[i] <= m
    ensures Sum(xs) <= |xs| * m
  {
    if xs != [] {
      SumAtMost(xs[1..], m);
      assert (|xs[1..]| + 1) * m == m + |xs[1..]| * m;
    }
  }

  /** A sum is zero exactly when every term is. */
  lemma {:induction false} SumZero(xs: seq<nat>)
    ensures Sum(xs) == 0 <==> forall i :: 0 <= i < |xs| ==> xs[i] == 0
  {
    if xs != [] {
      SumZero(xs[1..]);
      assert forall i :: 1 <= i < |xs| ==> xs[i] == xs[1..][i - 1];
    }
  }

  /** Number of `true` entries. */
  function CountTrue(bs: seq<bool>): (n: nat)
    ensures n <= |bs|
  {
    if bs == [] then 0 else (if bs[0] then 1 else 0) + CountTrue(bs[1..])
  }

  /** Every entry is counted exactly when all are `true`. */
  lemma {:induction false} CountTrueAll(bs: seq<bool>)
    ensures CountTrue(bs) == |bs| <==> forall i :: 0 <= i < |bs| ==> bs[i]
  {
    if bs != [] {
      CountTrueAll(bs[1..]);
      assert forall i :: 1 <= i < |bs| ==> bs[i] == bs[1..][i - 1];
    }
  }

  /** Nothing is counted exactly when no entry is `true`. */
  lemma {:induction false} CountTrueNone(bs: seq<bool>)
    ensures CountTrue(bs) == 0 <==> forall i :: 0 <= i < |bs| ==> !bs[i]
  {
    if bs != [] {
      CountTrueNone(bs[1..]);
      assert forall i :: 1 <= i < |bs| ==> bs[i] == bs[1..][i - 1];
    }
  }

  /** Counting distributes over concatenation. */
  lemma {:induction false} CountTrueAppend(a: seq<bool>, b: seq<bool>)
    ensures CountTrue(a + b) == CountTrue(a) + CountTrue(b)
  {
    if a == [] {
      assert a + b == b;
    } else {
      assert (a + b)[1..] == a[1..] + b;
      CountTrueAppend(a[1..], b);
    }
  }

  // ---------------------------------------------------------------------
  // str.split(sep) and str.split(sep, maxsplit)

  function CountChar(s: string, c: char): nat {
    if s == [] then 0 else (if s[0] == c then 1 else 0) + CountChar(s[1..], c)
  }

  /** Index of the first occurrence of `c`, or `|s|` when there is none. */
  function IndexOf(s: string, c: char): (i: nat)
    ensures i <= |s|
    ensures i < |s| ==> s[i] == c
    ensures forall k :: 0 <= k < i ==> s[k] != c
  {
    if s == [] then 0 else if s[0] == c then 0 else 1 + IndexOf(s[1..], c)
  }

  lemma CountCharSplit(s: string, c: char, i: nat)
    requires i <= |s|
    ensures CountChar(s, c) == CountChar(s[..i], c) + CountChar(s[i..], c)
  {
    if i > 0 {
      assert s[1..][..i - 1] == s[..i][1..];
      assert s[1..][i - 1..] == s[i..];
      CountCharSplit(s[1..], c, i - 1);
    }
  }

  lemma CountCharNone(s: string, c: char)
    requires forall k :: 0 <= k < |s| ==> s[k] != c
    ensures CountChar(s, c) == 0
  {
    if s != [] { CountCharNone(s[1..], c); }
  }

  /** `s.split(sep)` for a one-character separator. */
  function Split(s: string, sep: char): (parts: seq<string>)
    ensures |parts| >= 1
    ensures forall p :: p in parts ==> sep !in p
    decreases |s|
  {
    var i := IndexOf(s, sep);
    if i == |s| then [s] else [s[..i]] + Split(s[i + 1..], sep)
  }

  /** `sep.join(parts)`. */
  function Join(parts: seq<string>, sep: char): string
    requires |parts| >= 1
  {
    if |parts| == 1 then parts[0] else parts[0] + [sep] + Join(parts[1..], sep)
  }

  /** Splitting and re-joining on the same separator gives back the input. */
  lemma {:induction false} SplitJoin(s: string, sep: char)
    ensures Join(Split(s, sep), sep) == s
    decreases |s|
  {
    var i := IndexOf(s, sep);
    if i < |s| {
      var rest := s[i + 1..];
      SplitJoin(rest, sep);
      JoinAfterSplit(s, sep, Split(rest, sep));
      SplitStep(s, sep);
    }
  }

  /** One step of `split`: the text before the first separator, then the
      parts of the rest. */
  lemma SplitStep(s: string, sep: char)
    requires IndexOf(s, sep) < |s|
    ensures Split(s, sep) == [s[..IndexOf(s, sep)]] + Split(s[IndexOf(s, sep) + 1..], sep)
  {
  }

  /** Splitting a string of whitespace gives parts of whitespace. */
  lemma {:induction false} SplitOfSpaces(s: string, sep: char, j: nat)
    requires forall k :: 0 <= k < |s| ==> IsSpace(s[k])
    requires j < |Split(s, sep)|
    ensures forall k :: 0 <= k < |Split(s, sep)[j]| ==> IsSpace(Split(s, sep)[j][k])
    decreases |s|
  {
    var i := IndexOf(s, sep);
    if i < |s| && j > 0 {
      SplitOfSpaces(s[i + 1..], sep, j - 1);
    }
  }

  /** Whitespace strips to nothing. */
  lemma SpacesStripToEmpty(s: string)
    requires forall k :: 0 <= k < |s| ==> IsSpace(s[k])
    ensures Strip(s) == []
  {
  }

  /** There is one more part than there are separators. */
  lemma {:induction false} SplitCount(s: string, sep: char)
    ensures |Split(s, sep)| == CountChar(s, sep) + 1
    decreases |s|
  {
    var i := IndexOf(s, sep);
    CountCharSplit(s, sep, i);
    CountCharNone(s[..i], sep);
    if i < |s| {
      var rest := s[i + 1..];
      SplitCount(rest, sep);
      assert s[i..][1..] == rest;
      assert CountChar(s[i..], sep) == 1 + CountChar(rest, sep);
    }
  }

  /** A string is the text before position `i`, the character at `i`
      and the text after it. */
  lemma Recompose(s: string, i: nat)
    requires i < |s|
    ensures s[..i] + [s[i]] + s[i + 1..] == s
  {
  }

  /** Joining a part in front of a non-empty list. */
  lemma JoinCons(p: string, rest: seq<string>, sep: char)
    requires |rest| >= 1
    ensures Join([p] + rest, sep) == p + [sep] + Join(rest, sep)
  {
    assert ([p] + rest)[1..] == rest;
  }

  /** The four parts of a four-part list, joined. */
  lemma JoinFour(p: seq<string>, sep: char)
    requires |p| == 4
    ensures Join(p, sep) == p[0] + [sep] + p[1] + [sep] + p[2] + [sep] + p[3]
  {
    var q1 := p[1..];
    var q2 := q1[1..];
    var q3 := q2[1..];
    assert Join(q3, sep) == p[3];
    assert Join(q2, sep) == p[2] + [sep] + p[3];
    assert Join(q1, sep) == p[1] + [sep] + (p[2] + [sep] + p[3]);
  }

  /** `s.split(sep, n)`: at most `n` splits, the rest stays in the last part. */
  function SplitMax(s: string, sep: char, n: nat): (parts: seq<string>)
    ensures 1 <= |parts| <= n + 1
    decreases n
  {
    var i := IndexOf(s, sep);
    if n == 0 || i == |s| then [s] else [s[..i]] + SplitMax(s[i + 1..], sep, n - 1)
  }

  /** One step of `split(sep, n)` with splits left and a separator
      present. */
  lemma SplitMaxStep(s: string, sep: char, n: nat)
    requires n > 0 && IndexOf(s, sep) < |s|
    ensures SplitMax(s, sep, n) == [s[..IndexOf(s, sep)]] + SplitMax(s[IndexOf(s, sep) + 1..], sep, n - 1)
  {
  }

  /** `s.split(sep, n)` yields exactly `n + 1` parts exactly when `s` holds
      at least `n` separators. */
  lemma {:induction false} SplitMaxCount(s: string, sep: char, n: nat)
    ensures |SplitMax(s, sep, n)| == n + 1 <==> CountChar(s, sep) >= n
    decreases n
  {
    var i := IndexOf(s, sep);
    CountCharSplit(s, sep, i);
    CountCharNone(s[..i], sep);
    if i == |s| {
      CountCharNone(s, sep);
    } else if n > 0 {
      assert s[i..][1..] == s[i + 1..];
      SplitMaxCount(s[i + 1..], sep, n - 1);
    }
  }

  /** Re-joining the parts of `s.split(sep, n)` gives back `s`: nothing is
      lost when the split stops early. */
  lemma {:induction false} SplitMaxJoin(s: string, sep: char, n: nat)
    ensures Join(SplitMax(s, sep, n), sep) == s
    decreases n
  {
    var i := IndexOf(s, sep);
    if n > 0 && i < |s| {
      SplitMaxJoin(s[i + 1..], sep, n - 1);
      JoinAfterSplit(s, sep, SplitMax(s[i + 1..], sep, n - 1));
      SplitMaxStep(s, sep, n);
    } else {
      assert SplitMax(s, sep, n) == [s];
    }
  }

  /** Joining the text before the first separator with parts that join
      back into the rest of the text gives back the text. */
  lemma JoinAfterSplit(s: string, sep: char, tail: seq<string>)
    requires IndexOf(s, sep) < |s| && |tail| >= 1
    requires Join(tail, sep) == s[IndexOf(s, sep) + 1..]
    ensures Join([s[..IndexOf(s, sep)]] + tail, sep) == s
  {
    var i := IndexOf(s, sep);
    JoinCons(s[..i], tail, sep);
    Recompose(s, i);
  }

  // ---------------------------------------------------------------------
  // str.replace(c, r) for a one-character pattern

  function Replace(s: string, c: char, r: string): (t: string)
    ensures c !in r ==> c !in t
    ensures c !in s ==> t == s
  {
    if s == [] then []
    else (if s[0] == c then r else [s[0]]) + Replace(s[1..], c, r)
  }

  /** Replacing distributes over concatenation. */
  lemma {:induction false} ReplaceAppend(a: string, b: string, c: char, r: string)
    ensures Replace(a + b, c, r) == Replace(a, c, r) + Replace(b, c, r)
  {
    if a == [] {
      assert a + b == b;
    } else {
      assert (a + b)[0] == a[0] && (a + b)[1..] == a[1..] + b;
      ReplaceAppend(a[1..], b, c, r);
    }
  }

  // ---------------------------------------------------------------------
  // str(n) for a non-negative int

  function DigitChar(d: nat): char
    requires d < 10
  {
    ('0' as int + d) as char
  }

  function Decimal(n: nat): (r: string)
    ensures |r| >= 1
    ensures forall i :: 0 <= i < |r| ==> IsAsciiDigit(r[i])
  {
    if n < 10 then [DigitChar(n)] else Decimal(n / 10) + [DigitChar(n % 10)]
  }

  /** The value of a string of ASCII digits, read in base ten. */
  function DigitsValue(s: string): nat
    requires forall i :: 0 <= i < |s| ==> IsAsciiDigit(s[i])
  {
    if s == [] then 0
    else
      var last := s[|s| - 1];
      assert IsAsciiDigit(last);
      10 * DigitsValue(s[..|s| - 1]) + (last as int - '0' as int)
  }

  /** Reading back `str(n)` gives `n`. */
  lemma {:induction false} DecimalRoundTrip(n: nat)
    ensures DigitsValue(Decimal(n)) == n
  {
    if n >= 10 {
      DecimalRoundTrip(n / 10);
      var r := Decimal(n);
      assert r[..|r| - 1] == Decimal(n / 10);
    }
  }

  /** `str(n)` has at most `k` digits when `n < 10^k`. */
  lemma {:induction false} DecimalLength(n: nat, k: nat)
    requires 1 <= k && n < Pow10(k)
    ensures |Decimal(n)| <= k
  {
    if n >= 10 {
      assert n / 10 < Pow10(k - 1);
      DecimalLength(n / 10, k - 1);
    }
  }

  function Pow10(k: nat): (p: nat)
    ensures p >= 1
  {
    if k == 0 then 1 else 10 * Pow10(k - 1)
  }
}
