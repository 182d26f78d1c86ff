/** The Python values `json.loads` produces, as the CCAA reader inspects
    them (scraper/scraper_spain_ccaa.py:156-196): dictionaries read with
    `get`, truthiness in `or` chains, and `str()` of whatever a field
    holds. */
module Json {
  import opened Common

  /** A decoded JSON document. `Obj` lists the entries of the resulting
      `dict` in insertion order, one entry per key. Numbers are integers. */
  datatype Value =
    | Null
    | Bool(b: bool)
    | Int(i: int)
    | Str(s: string)
    | Arr(items: seq<Value>)
    | Obj(entries: seq<Member>)

  /** One `key: value` entry of an object. */
  datatype Member = Member(key: string, val: Value)

  /** `d.get(key)`: the value of the entry with that key. */
  function Get(entries: seq<Member>, key: string): (r: Option<Value>)
    ensures r.None? <==> forall i :: 0 <= i < |entries| ==> entries[i].key != key
    ensures r.Some? ==> exists i :: 0 <= i < |entries| && entries[i] == Member(key, r.value)
  {
    if entries == [] then None
    else if entries[0].key == key then Some(entries[0].val)
    else
      var r := Get(entries[1..], key);
      if r.Some? then
        var i :| 0 <= i < |entries[1..]| && entries[1..][i] == Member(key, r.value);
        assert entries[i + 1] == Member(key, r.value);
        r
      else r
  }

  /** Python truthiness: `None`, `False`, `0`, `""`, `[]` and `{}` are
      false, everything else is true. */
  predicate Truthy(v: Value) {
    match v
    case Null => false
    case Bool(b) => b
    case Int(i) => i != 0
    case Str(s) => s != []
    case Arr(items) => items != []
    case Obj(entries) => entries != []
  }

  /** `d.get(k1) or d.get(k2) or ...`: the first truthy value among the
      keys, `None` when every lookup is falsy or missing. */
  function FirstTruthy(entries: seq<Member>, keys: seq<string>): (r: Option<Value>)
    ensures r.Some? ==> Truthy(r.value)
    ensures r.Some? ==> exists n :: FirstTruthyAt(entries, keys, n) && Get(entries, keys[n]) == r
    ensures r.None? <==> forall n :: 0 <= n < |keys| ==> !GetTruthy(entries, keys[n])
  {
    if keys == [] then None
    else if GetTruthy(entries, keys[0]) then
      assert FirstTruthyAt(entries, keys, 0);
      Get(entries, keys[0])
    else
      var r := FirstTruthy(entries, keys[1..]);
      if r.Some? then
        var n :| FirstTruthyAt(entries, keys[1..], n) && Get(entries, keys[1..][n]) == r;
        assert FirstTruthyAt(entries, keys, n + 1);
        r
      else
        assert forall n :: 1 <= n < |keys| ==> keys[n] == keys[1..][n - 1];
        r
  }

  /** The key looked up yields a truthy value. */
  predicate GetTruthy(entries: seq<Member>, key: string) {
    Get(entries, key).Some? && Truthy(Get(entries, key).value)
  }

  /** `keys[n]` is the first key of the chain whose value is truthy. */
  predicate FirstTruthyAt(entries: seq<Member>, keys: seq<string>, n: int) {
    && 0 <= n < |keys| && GetTruthy(entries, keys[n])
    && forall m :: 0 <= m < n ==> !GetTruthy(entries, keys[m])
  }

  // ---------------------------------------------------------------------
  // str()

  /** `str(n)` for any integer. */
  function IntText(i: int): (r: string)
    ensures r != []
    ensures i >= 0 ==> r == Decimal(i)
    ensures i < 0 ==> r == "-" + Decimal(-i)
  {
    if i < 0 then "-" + Decimal(-i) else Decimal(i)
  }

  /** `str(v)`: strings as they are, the other values as Python prints
      them; inside a container a string is written between single quotes. */
  function PyStr(v: Value): (r: string)
    ensures r == [] <==> v == Str([])
    ensures v.Str? ==> r == v.s
  {
    match v
    case Str(s) => s
    case _ => Repr(v)
  }

  function Repr(v: Value): string
    decreases v, 1
  {
    match v
    case Null => "None"
    case Bool(b) => if b then "True" else "False"
    case Int(i) => IntText(i)
    case Str(s) => "'" + s + "'"
    case Arr(items) => "[" + ReprItems(items) + "]"
    case Obj(entries) => "{" + ReprEntries(entries) + "}"
  }

  function ReprItems(items: seq<Value>): string
    decreases items, 0
  {
    if items == [] then []
    else Repr(items[0]) + (if |items| == 1 then "" else ", " + ReprItems(items[1..]))
  }

  function ReprEntries(entries: seq<Member>): string
    decreases entries, 0
  {
    if entries == [] then []
    else
      "'" + entries[0].key + "': " + Repr(entries[0].val)
      + (if |entries| == 1 then "" else ", " + ReprEntries(entries[1..]))
  }

  /** `str()` of a non-negative integer reads back as that integer. */
  lemma IntTextRoundTrip(i: nat)
    ensures PyStr(Int(i)) == Decimal(i)
    ensures DigitsValue(PyStr(Int(i))) == i
  {
    DecimalRoundTrip(i);
  }

  /** `str()` of a string is that string, and of any other value something
      non-empty: a truthy field never prints as `""`. */
  lemma PyStrOfTruthy(v: Value)
    requires Truthy(v)
    ensures PyStr(v) != []
    ensures v.Str? ==> PyStr(v) == v.s
  {
  }
}
