/** Option and Result, used for absent values and for error returns. */
module Wrappers {
  datatype Option<+T> = None | Some(value: T)
  datatype Result<+T, +E> = Ok(value: T) | Err(error: E)
}

/**
 * The JSON documents the script reads, as `json.load` returns them, and the
 * few Python built-ins the script applies to them: truthiness, `in` and
 * `dict.get` on a dict, iteration, `str()`, slicing, `str.strip` and
 * `str.join`.
 */
module Json {
  import opened Wrappers

  /**
   * A parsed JSON value. An object keeps its entries in document order,
   * because the script iterates dicts (`data.values()`, `mapping.items()`)
   * and Python dicts iterate in insertion order.
   */
  datatype Value =
    | Null
    | Bool(b: bool)
    | Int(n: int)
    | Str(s: string)
    | Arr(items: seq<Value>)
    | Obj(fields: seq<(string, Value)>)

  /** Python truthiness: `None`, `False`, `0`, `""`, `[]` and `{}` are false. */
  predicate Truthy(v: Value) {
    match v
    case Null => false
    case Bool(b) => b
    case Int(n) => n != 0
    case Str(s) => s != []
    case Arr(xs) => xs != []
    case Obj(fs) => fs != []
  }

  /** The value of the first entry whose key is `key`. */
  function Lookup(fields: seq<(string, Value)>, key: string): Option<Value> {
    if fields == [] then None
    else if fields[0].0 == key then Some(fields[0].1)
    else Lookup(fields[1..], key)
  }

  /** Lookup finds a key exactly when some entry has it, and then returns the first such entry's value. */
  lemma {:induction false} LookupFirst(fields: seq<(string, Value)>, key: string)
    ensures Lookup(fields, key).Some? <==> exists i :: 0 <= i < |fields| && fields[i].0 == key
    ensures forall i :: 0 <= i < |fields| && fields[i].0 == key && (forall j :: 0 <= j < i ==> fields[j].0 != key)
                        ==> Lookup(fields, key) == Some(fields[i].1)
  {
    if fields != [] {
      LookupFirst(fields[1..], key);
      if fields[0].0 != key {
        if Lookup(fields, key).Some? {
          var i :| 0 <= i < |fields[1..]| && fields[1..][i].0 == key;
          assert fields[i + 1].0 == key;
        }
        forall i | 0 <= i < |fields| && fields[i].0 == key && (forall j :: 0 <= j < i ==> fields[j].0 != key)
          ensures Lookup(fields, key) == Some(fields[i].1)
        {
          assert i > 0;
          assert fields[1..][i - 1] == fields[i];
          assert forall j :: 0 <= j < i - 1 ==> fields[1..][j].0 != key by {
            forall j | 0 <= j < i - 1 ensures fields[1..][j].0 != key {
              assert fields[1..][j] == fields[j + 1];
            }
          }
        }
      }
    }
  }

  /** `key in v` for a dict `v`; any other value has no keys in this model. */
  predicate Has(v: Value, key: string) {
    v.Obj? && Lookup(v.fields, key).Some?
  }

  /** `v.get(key)` for a dict `v`, absent as `None`. */
  function Get(v: Value, key: string): Option<Value> {
    if v.Obj? then Lookup(v.fields, key) else None
  }

  /** `v.get(key, default)` for a dict `v`. */
  function GetOr(v: Value, key: string, default: Value): Value {
    match Get(v, key)
    case Some(x) => x
    case None => default
  }

  /**
   * `d.get(key, default)` on a dict is the value of the first entry with
   * the key, and the default when no entry has it; any other value
   * always gives the default.
   */
  lemma GetOrFirst(v: Value, key: string, default: Value)
    ensures Has(v, key) <==> v.Obj? && exists i :: 0 <= i < |v.fields| && v.fields[i].0 == key
    ensures v.Obj? ==>
              forall i :: 0 <= i < |v.fields| && v.fields[i].0 == key && (forall j :: 0 <= j < i ==> v.fields[j].0 != key)
                          ==> GetOr(v, key, default) == v.fields[i].1
    ensures !Has(v, key) ==> GetOr(v, key, default) == default
  {
    if v.Obj? {
      LookupFirst(v.fields, key);
    }
  }

  /**
   * The values a Python `for` loop over `v` visits: a list's elements, a
   * string's characters, a dict's keys. Iterating anything else raises in
   * Python; here it visits nothing.
   */
  function Iterate(v: Value): seq<Value> {
    match v
    case Arr(xs) => xs
    case Str(s) => seq(|s|, i requires 0 <= i < |s| => Str([s[i]]))
    case Obj(fs) => seq(|fs|, i requires 0 <= i < |fs| => Str(fs[i].0))
    case _ => []
  }

  function DigitChar(d: nat): char
    requires d < 10
  {
    "0123456789"[d]
  }

  /** The decimal digits of a natural number, most significant first. */
  function Digits(n: nat): (r: string)
    ensures |r| >= 1
    ensures forall i :: 0 <= i < |r| ==> '0' <= r[i] <= '9'
  {
    if n < 10 then [DigitChar(n)] else Digits(n / 10) + [DigitChar(n % 10)]
  }

  /** `str(n)` for an int. */
  function Decimal(n: int): string {
    if n < 0 then "-" + Digits(-n) else Digits(n)
  }
  /** The number a string of decimal digits denotes, read most significant digit first. */
  function DecimalValue(s: string): int {
    if s == [] then 0 else DecimalValue(s[..|s| - 1]) * 10 + (s[|s| - 1] as int - '0' as int)
  }

  /** `str()` of a natural number reads back as that number. */
  lemma {:induction false} DigitsValue(n: nat)
    ensures DecimalValue(Digits(n)) == n
  {
    var s := Digits(n);
    if n < 10 {
      assert s[..0] == [];
    } else {
      DigitsValue(n / 10);
      assert s[..|s| - 1] == Digits(n / 10);
    }
  }

  /** `str()` of an integer: the digits of its magnitude, after a minus sign when it is negative. */
  lemma {:induction false} DecimalValueOf(n: int)
    ensures n >= 0 ==> DecimalValue(Decimal(n)) == n
    ensures n < 0 ==> Decimal(n)[0] == '-' && DecimalValue(Decimal(n)[1..]) == -n
  {
    if n >= 0 {
      DigitsValue(n);
    } else {
      var m: nat := -n;
      var s := Decimal(n);
      assert s == "-" + Digits(m);
      DigitsValue(m);
      assert s[1..] == Digits(m);
    }
  }

  /** `sep.join(parts)`. */
  function Join(sep: string, parts: seq<string>): string {
    if parts == [] then ""
    else if |parts| == 1 then parts[0]
    else Join(sep, parts[..|parts| - 1]) + sep + parts[|parts| - 1]
  }

  /**
   * `str(v)` when `quoted` is false, `repr(v)` when it is true (the form a
   * value takes inside a printed list or dict).
   */
  function Render(v: Value, quoted: bool): string {
    match v
    case Null => "None"
    case Bool(b) => if b then "True" else "False"
    case Int(n) => Decimal(n)
    case Str(s) => if quoted then "'" + s + "'" else s
    case Arr(xs) =>
      "[" + Join(", ", seq(|xs|, i requires 0 <= i < |xs| => Render(xs[i], true))) + "]"
    case Obj(fs) =>
      "{" + Join(", ", seq(|fs|, i requires 0 <= i < |fs| => "'" + fs[i].0 + "': " + Render(fs[i].1, true))) + "}"
  }

  /** `str(v)`. */
  function PyStr(v: Value): string {
    Render(v, false)
  }

  /** Only the empty string renders as the empty text: `str(v)` is non-empty for every truthy `v`. */
  lemma PyStrOfTruthy(v: Value)
    requires Truthy(v)
    ensures PyStr(v) != []
  {
  }

  /** `s[:n]`: the longest prefix of `s` that is at most `n` characters long. */
  function Truncate(s: string, n: nat): (r: string)
    ensures r <= s
    ensures |r| == if |s| <= n then |s| else n
  {
    if |s| <= n then s else s[..n]
  }

  /** The characters Python's `str.strip()` removes (those for which `str.isspace()` holds). */
  predicate IsSpace(c: char) {
    c == ' ' || ('\t' <= c <= '\r') || ('\U{1C}' <= c <= '\U{1F}') || c == '\U{85}' || c == '\U{A0}'
    || c == '\U{1680}' || ('\U{2000}' <= c <= '\U{200A}') || c == '\U{2028}' || c == '\U{2029}'
    || c == '\U{202F}' || c == '\U{205F}' || c == '\U{3000}'
  }

  /** `not s.strip()`: the string is empty or all whitespace. */
  predicate IsBlank(s: string) {
    forall i :: 0 <= i < |s| ==> IsSpace(s[i])
  }
}
