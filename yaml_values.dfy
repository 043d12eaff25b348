/** Structured configuration values, as the YAML loader hands them to the
    daemon, and the Python built-ins the daemon applies to them: key lookup,
    subscripting, iteration and `int()` conversion. Every exception those
    built-ins can raise is a `Raise` result carrying the exception's kind. */
module Yaml {

  datatype Option<+T> = None | Some(value: T)

  /** The kinds of exception the modelled code can raise or let through. */
  datatype Error = ValueError | KeyError | TypeError | AttributeError | AssertionError

  /** A Python call that either returns a value or raises. */
  datatype Result<+T> = Ok(value: T) | Raise(error: Error)

  /** A decoded YAML value. `Null` is Python's `None`; a mapping keeps its
      entries in insertion order, as a Python dict does. */
  datatype Value =
    | Null
    | Bool(b: bool)
    | Int(i: int)
    | Str(s: string)
    | List(items: seq<Value>)
    | Dict(entries: seq<(string, Value)>)

  type Entries = seq<(string, Value)>

  /** Python dicts never hold a key twice. */
  predicate UniqueKeys<T>(entries: seq<(string, T)>)
  {
    forall i, j :: 0 <= i < j < |entries| ==> entries[i].0 != entries[j].0
  }

  /** The position of the first entry with key `key`, if any. */
  function Find<T>(entries: seq<(string, T)>, key: string): (r: Option<nat>)
    ensures r.Some? ==> r.value < |entries| && entries[r.value].0 == key
    ensures r.Some? ==> forall j :: 0 <= j < r.value ==> entries[j].0 != key
    ensures r.None? <==> forall j :: 0 <= j < |entries| ==> entries[j].0 != key
  {
    if entries == [] then None
    else if entries[0].0 == key then Some(0)
    else match Find(entries[1..], key)
      case None => None
      case Some(i) => Some(i + 1)
  }

  /** `key in d` */
  predicate HasKey<T>(entries: seq<(string, T)>, key: string)
  {
    Find(entries, key).Some?
  }

  /** `d[key]` for a key that is present. */
  function Lookup<T>(entries: seq<(string, T)>, key: string): T
    requires HasKey(entries, key)
  {
    entries[Find(entries, key).value].1
  }

  /** `d.get(key, default)` */
  function Get(entries: Entries, key: string, default: Value): (r: Value)
    ensures HasKey(entries, key) ==> r == Lookup(entries, key)
    ensures !HasKey(entries, key) ==> r == default
  {
    if HasKey(entries, key) then Lookup(entries, key) else default
  }

  /** `d[key] = value` */
  function Assign<T>(entries: seq<(string, T)>, key: string, value: T): seq<(string, T)>
  {
    match Find(entries, key)
    case Some(i) => entries[i := (key, value)]
    case None => entries + [(key, value)]
  }

  /** Dict assignment: an existing key keeps its position and takes the new
      value, a new key is appended; afterwards the key maps to the value and
      every other key is as it was. */
  lemma AssignMeaning<T>(entries: seq<(string, T)>, key: string, value: T)
    ensures var r := Assign(entries, key, value);
      && (HasKey(entries, key) ==> |r| == |entries| && r[Find(entries, key).value] == (key, value))
      && (!HasKey(entries, key) ==> r == entries + [(key, value)])
      && HasKey(r, key) && Lookup(r, key) == value
      && (forall k :: k != key ==> Find(r, k) == Find(entries, k))
      && (forall k :: k != key && HasKey(entries, k) ==> Lookup(r, k) == Lookup(entries, k))
      && (UniqueKeys(entries) ==> UniqueKeys(r))
  {
    var r := Assign(entries, key, value);
    match Find(entries, key)
    case Some(i) =>
      assert r == entries[i := (key, value)];
      forall k ensures Find(r, k) == Find(entries, k) {
        FindSameKeys(entries, r, k);
      }
      forall k | k != key && HasKey(entries, k) ensures Lookup(r, k) == Lookup(entries, k) {
        assert Find(entries, k).value != i;
      }
    case None =>
      assert r == entries + [(key, value)];
      forall k ensures Find(r, k) == if k == key then Some(|entries|) else Find(entries, k) {
        FindAppended(entries, key, value, k);
      }
      forall k | k != key && HasKey(entries, k) ensures Lookup(r, k) == Lookup(entries, k) {
        assert r[Find(entries, k).value] == entries[Find(entries, k).value];
      }
      if UniqueKeys(entries) {
        forall a, b | 0 <= a < b < |r| ensures r[a].0 != r[b].0 {
          if b == |entries| {
            assert r[a] == entries[a] && entries[a].0 != key;
          } else {
            assert r[a] == entries[a] && r[b] == entries[b];
          }
        }
      }
  }

  /** Find looks only at the keys. */
  lemma FindSameKeys<T, U>(a: seq<(string, T)>, b: seq<(string, U)>, key: string)
    requires |a| == |b| && forall j :: 0 <= j < |a| ==> a[j].0 == b[j].0
    ensures Find(a, key) == Find(b, key)
  {
    match Find(a, key)
    case None =>
    case Some(i) =>
  }

  lemma FindAppended<T>(a: seq<(string, T)>, key: string, value: T, k: string)
    ensures Find(a + [(key, value)], k) ==
      (if HasKey(a, k) then Find(a, k) else if k == key then Some(|a|) else None)
  {
    if a != [] {
      FindAppended(a[1..], key, value, k);
      assert (a + [(key, value)])[1..] == a[1..] + [(key, value)];
      if a[0].0 != k {
        assert HasKey(a, k) == HasKey(a[1..], k);
      }
    }
  }

  /** Lookups in a two-entry mapping. */
  lemma FindInPair<T>(k1: string, v1: T, k2: string, v2: T)
    requires k1 != k2
    ensures Find([(k1, v1), (k2, v2)], k1) == Some(0)
    ensures Find([(k1, v1), (k2, v2)], k2) == Some(1)
    ensures forall k :: k != k1 && k != k2 ==> Find([(k1, v1), (k2, v2)], k) == None
  {
    assert [(k1, v1), (k2, v2)][1..] == [(k2, v2)];
  }

  /** Lookups in a three-entry mapping. */
  lemma FindInTriple<T>(k1: string, v1: T, k2: string, v2: T, k3: string, v3: T)
    requires k1 != k2 && k1 != k3 && k2 != k3
    ensures Find([(k1, v1), (k2, v2), (k3, v3)], k1) == Some(0)
    ensures Find([(k1, v1), (k2, v2), (k3, v3)], k2) == Some(1)
    ensures Find([(k1, v1), (k2, v2), (k3, v3)], k3) == Some(2)
    ensures forall k :: k != k1 && k != k2 && k != k3 ==> Find([(k1, v1), (k2, v2), (k3, v3)], k) == None
  {
    FindInPair(k2, v2, k3, v3);
    assert [(k1, v1), (k2, v2), (k3, v3)][1..] == [(k2, v2), (k3, v3)];
  }

  /** `v[key]` for a string key: only a mapping can be subscripted by a
      string; a list or a string needs an integer index, and the other
      values cannot be subscripted at all. */
  function Subscript(v: Value, key: string): (r: Result<Value>)
    ensures r.Ok? <==> v.Dict? && HasKey(v.entries, key)
    ensures r.Ok? ==> r.value == Lookup(v.entries, key)
    ensures r.Raise? ==> r.error == (if v.Dict? then KeyError else TypeError)
  {
    if !v.Dict? then Raise(TypeError)
    else if HasKey(v.entries, key) then Ok(Lookup(v.entries, key))
    else Raise(KeyError)
  }

  /** `for x in v`: a list yields its items, a mapping its keys, a string its
      one-character strings; the other values are not iterable. */
  function Iterate(v: Value): (r: Result<seq<Value>>)
    ensures r.Raise? <==> !(v.List? || v.Dict? || v.Str?)
    ensures r.Raise? ==> r.error == TypeError
    ensures v.List? ==> r == Ok(v.items)
    ensures v.Dict? ==> (r.Ok? && |r.value| == |v.entries| &&
                         forall i :: 0 <= i < |v.entries| ==> r.value[i] == Str(v.entries[i].0))
    ensures v.Str? ==> (r.Ok? && |r.value| == |v.s| &&
                        forall i :: 0 <= i < |v.s| ==> r.value[i] == Str([v.s[i]]))
  {
    match v
    case List(items) => Ok(items)
    case Dict(entries) => Ok(seq(|entries|, i requires 0 <= i < |entries| => Str(entries[i].0)))
    case Str(s) => Ok(seq(|s|, i requires 0 <= i < |s| => Str([s[i]])))
    case _ => Raise(TypeError)
  }

  predicate IsDigit(c: char)
  {
    '0' <= c <= '9'
  }

  /** The whitespace `int()` strips from both ends of a string: the
      characters for which Python's `str.isspace` holds. */
  predicate IsSpace(c: char)
  {
    || c == ' ' || ('\t' <= c <= '\r') || ('\U{1C}' <= c <= '\U{1F}')
    || c == '\U{85}' || c == '\U{A0}' || c == '\U{1680}'
    || ('\U{2000}' <= c <= '\U{200A}') || c == '\U{2028}' || c == '\U{2029}'
    || c == '\U{202F}' || c == '\U{205F}' || c == '\U{3000}'
  }

  function DigitsValue(ds: string): (n: nat)
    requires forall i :: 0 <= i < |ds| ==> IsDigit(ds[i])
  {
    if ds == [] then 0
    else
      var last := ds[|ds| - 1];
      assert IsDigit(last);
      10 * DigitsValue(ds[..|ds| - 1]) + (last as int - '0' as int)
  }

  function StripStart(s: string): (r: string)
    ensures |r| <= |s| && r == s[|s| - |r|..]
    ensures r == [] || !IsSpace(r[0])
  {
    if s != [] && IsSpace(s[0]) then StripStart(s[1..]) else s
  }

  function StripEnd(s: string): (r: string)
    ensures |r| <= |s| && r == s[..|r|]
    ensures r == [] || !IsSpace(r[|r| - 1])
  {
    if s != [] && IsSpace(s[|s| - 1]) then StripEnd(s[..|s| - 1]) else s
  }

  /** The most digits CPython 3.11 converts between an integer and its
      decimal string (`sys.int_info.default_max_str_digits`); `int()` and
      `str()` raise ValueError beyond it. */
  const MaxStrDigits := 4300

  /** `int(s)` for a string: optional surrounding whitespace around a
      signed numeral. */
  function ParseDecimal(s: string): (r: Result<int>)
    ensures r.Raise? ==> r.error == ValueError
  {
    ParseSigned(StripEnd(StripStart(s)))
  }

  /** The numeral `int()` reads once the whitespace is stripped: an optional
      sign and at least one and at most MaxStrDigits decimal digits. */
  function ParseSigned(t: string): (r: Result<int>)
    ensures r.Raise? ==> r.error == ValueError
  {
    var sign := if t != [] && (t[0] == '-' || t[0] == '+') then 1 else 0;
    var ds := t[sign..];
    if ds == [] || exists i :: 0 <= i < |ds| && !IsDigit(ds[i]) then Raise(ValueError)
    else if |ds| > MaxStrDigits then Raise(ValueError)
    else
      var n: int := DigitsValue(ds);
      if sign == 1 && t[0] == '-' then Ok(-n) else Ok(n)
  }

  /** Python's `int(v)` for a decoded value: booleans are 0 and 1, strings
      are read as decimal numerals, and null, lists and mappings raise
      TypeError. */
  function ToInt(v: Value): (r: Result<int>)
    ensures v.Int? ==> r == Ok(v.i)
    ensures v.Bool? ==> r == Ok(if v.b then 1 else 0)
    ensures v.Null? || v.List? || v.Dict? ==> r == Raise(TypeError)
    ensures v.Str? && r.Raise? ==> r.error == ValueError
  {
    match v
    case Int(i) => Ok(i)
    case Bool(b) => Ok(if b then 1 else 0)
    case Str(s) => ParseDecimal(s)
    case _ => Raise(TypeError)
  }

  /** The decimal numeral of a natural number, as `str(n)` writes it. */
  function Decimal(n: nat): (s: string)
    ensures s != [] && forall i :: 0 <= i < |s| ==> IsDigit(s[i])
  {
    var last := [('0' as int + n % 10) as char];
    if n < 10 then last else Decimal(n / 10) + last
  }

  lemma {:induction false} DecimalValue(n: nat)
    ensures DigitsValue(Decimal(n)) == n
  {
    var s := Decimal(n);
    if n >= 10 {
      DecimalValue(n / 10);
      assert s[..|s| - 1] == Decimal(n / 10);
    }
  }

  /** `int(str(n))` gives back `n`: a count written as a quoted string in
      the configuration reads as the same number. A number of more than
      MaxStrDigits digits raises ValueError instead, as `str(n)` already
      does in CPython 3.11. */
  lemma ToIntOfDecimal(n: int)
    ensures ToInt(Str(if n < 0 then "-" + Decimal(-n) else Decimal(n))) ==
      if |Decimal(if n < 0 then -n else n)| <= MaxStrDigits then Ok(n) else Raise(ValueError)
  {
    var m: nat := if n < 0 then -n else n;
    var d := Decimal(m);
    var s := if n < 0 then "-" + d else d;
    DecimalValue(m);
    ParseNumeral(n < 0, d);
  }

  /** `int()` of an optionally signed run of decimal digits. */
  lemma ParseNumeral(negative: bool, ds: string)
    requires ds != [] && forall i :: 0 <= i < |ds| ==> IsDigit(ds[i])
    ensures ParseDecimal(if negative then "-" + ds else ds) ==
      if |ds| > MaxStrDigits then Raise(ValueError)
      else var v: int := DigitsValue(ds); Ok(if negative then -v else v)
  {
    var s := if negative then "-" + ds else ds;
    assert s[|s| - 1] == ds[|ds| - 1];
    NoSpaceToParse(s);
    SignedNumeral(negative, ds);
  }

  lemma SignedNumeral(negative: bool, ds: string)
    requires ds != [] && forall i :: 0 <= i < |ds| ==> IsDigit(ds[i])
    ensures ParseSigned(if negative then "-" + ds else ds) ==
      if |ds| > MaxStrDigits then Raise(ValueError)
      else var v: int := DigitsValue(ds); Ok(if negative then -v else v)
  {
    var s := if negative then "-" + ds else ds;
    var sign := if negative then 1 else 0;
    assert s[sign..] == ds;
  }

  lemma NoSpaceToParse(s: string)
    requires s != [] && !IsSpace(s[0]) && !IsSpace(s[|s| - 1])
    ensures ParseDecimal(s) == ParseSigned(s)
  {
    NoSpaceToStrip(s);
  }

  lemma NoSpaceToStrip(s: string)
    requires s != [] && !IsSpace(s[0]) && !IsSpace(s[|s| - 1])
    ensures StripEnd(StripStart(s)) == s
  {
  }
}
