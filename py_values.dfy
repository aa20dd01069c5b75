/**
 * The loosely typed values the settings file, the chat messages and the token budget
 * receive: JSON-like Python objects, with `str()`, truthiness, dictionary lookup and
 * the `int()` conversion the budget applies to them.
 */
module PyValues {
  import opened Wrappers
  import opened Text

  /**
   * A Python object. Dictionaries keep their insertion order and have string keys;
   * `Opaque` is any other object (a float, say), carrying the text `str()` gives it.
   */
  datatype PyValue =
    | PyNone
    | PyBool(b: bool)
    | PyInt(i: int)
    | PyStr(s: string)
    | PyList(items: seq<PyValue>)
    | PyDict(entries: seq<(string, PyValue)>)
    | Opaque(text: string)

  /** `key in d` for a dictionary's entries. */
  predicate HasKey(entries: seq<(string, PyValue)>, key: string) {
    exists i :: 0 <= i < |entries| && entries[i].0 == key
  }

  /** `d.get(key, default)`: the value stored under the key, or the default. */
  function Get(entries: seq<(string, PyValue)>, key: string, default: PyValue): (v: PyValue)
    ensures !HasKey(entries, key) ==> v == default
    ensures HasKey(entries, key) ==> exists i :: 0 <= i < |entries| && entries[i] == (key, v)
  {
    if entries == [] then default
    else if entries[0].0 == key then entries[0].1
    else
      var v := Get(entries[1..], key, default);
      assert HasKey(entries, key) ==> HasKey(entries[1..], key) by {
        if HasKey(entries, key) {
          var i :| 0 <= i < |entries| && entries[i].0 == key;
          assert i != 0;
          assert entries[1..][i - 1] == entries[i];
        }
      }
      assert HasKey(entries[1..], key) ==> exists i :: 0 <= i < |entries| && entries[i] == (key, v) by {
        if HasKey(entries[1..], key) {
          var j :| 0 <= j < |entries[1..]| && entries[1..][j] == (key, v);
          assert entries[j + 1] == (key, v);
        }
      }
      v
  }

  /** `bool(v)`: None, False, 0 and empty strings, lists and dictionaries are false. */
  predicate Truthy(v: PyValue) {
    match v
    case PyNone => false
    case PyBool(b) => b
    case PyInt(i) => i != 0
    case PyStr(s) => s != []
    case PyList(items) => items != []
    case PyDict(entries) => entries != []
    case Opaque(_) => true
  }

  /** `str(v)`. */
  function Show(v: PyValue): (s: string)
    ensures v.PyStr? ==> s == v.s
    ensures v.PyNone? ==> s == "None"
    ensures v.PyInt? ==> s == IntToString(v.i)
    decreases v, 1
  {
    match v
    case PyStr(s) => s
    case _ => Repr(v)
  }

  /**
   * `repr(v)`. Strings are shown between single quotes without escaping, which is
   * what Python prints for a string with no quote, backslash or control character.
   */
  function Repr(v: PyValue): string
    decreases v, 0
  {
    match v
    case PyNone => "None"
    case PyBool(b) => if b then "True" else "False"
    case PyInt(i) => IntToString(i)
    case PyStr(s) => "'" + s + "'"
    case PyList(items) =>
      "[" + Join(", ", seq(|items|, k requires 0 <= k < |items| => Repr(items[k]))) + "]"
    case PyDict(entries) =>
      "{" + Join(", ", seq(|entries|, k requires 0 <= k < |entries| =>
                             "'" + entries[k].0 + "': " + Repr(entries[k].1))) + "}"
    case Opaque(text) => text
  }

  // ---------------------------------------------------------------------------
  // int()
  // ---------------------------------------------------------------------------

  predicate IsDigit(c: char) {
    '0' <= c <= '9'
  }

  /** Decimal digits with single underscores between them: what `int()` accepts after the sign. */
  predicate DigitGroups(d: string) {
    d != [] && IsDigit(d[0]) && IsDigit(d[|d| - 1])
    && (forall i :: 0 <= i < |d| ==> IsDigit(d[i]) || d[i] == '_')
    && (forall i :: 0 <= i < |d| - 1 ==> !(d[i] == '_' && d[i + 1] == '_'))
  }

  /** The number the digits spell, underscores ignored. */
  function DigitsValue(d: string): nat {
    if d == [] then 0
    else
      var last := d[|d| - 1];
      if IsDigit(last) then DigitsValue(d[..|d| - 1]) * 10 + (last as int - '0' as int)
      else DigitsValue(d[..|d| - 1])
  }

  /** `int(s)` for a string: surrounding whitespace, an optional sign, then digit groups. */
  function ParseInt(s: string): Option<int> {
    ParseSigned(Strip(s))
  }

  /** An optional sign followed by digit groups. */
  function ParseSigned(t: string): Option<int> {
    if t != [] && (t[0] == '+' || t[0] == '-') then
      if DigitGroups(t[1..]) then
        var m: int := DigitsValue(t[1..]);
        Some(if t[0] == '-' then -m else m)
      else None
    else if DigitGroups(t) then Some(DigitsValue(t))
    else None
  }

  /** `int(v)`: None where Python raises TypeError or ValueError. Floats are `Opaque` and not converted. */
  function ToInt(v: PyValue): Option<int> {
    match v
    case PyInt(i) => Some(i)
    case PyBool(b) => Some(if b then 1 else 0)
    case PyStr(s) => ParseInt(s)
    case _ => None
  }

  lemma {:induction false} DigitsValueOfNat(n: nat)
    ensures DigitsValue(NatToString(n)) == n
    decreases n
  {
    var s := NatToString(n);
    if n >= 10 {
      DigitsValueOfNat(n / 10);
      assert s[..|s| - 1] == NatToString(n / 10);
    }
  }

  lemma NatToStringDigitGroups(n: nat)
    ensures DigitGroups(NatToString(n))
  {
  }

  lemma ParseNatText(n: nat)
    ensures ParseInt(NatToString(n)) == Some(n)
  {
    var s := NatToString(n);
    assert IsDigit(s[0]) && IsDigit(s[|s| - 1]);
    StrippedIsFixpoint(s);
    DigitsValueOfNat(n);
    NatToStringDigitGroups(n);
  }

  /** A minus sign before digit groups reads as the negated number. */
  lemma ParseSignedNegative(d: string)
    requires DigitGroups(d)
    ensures ParseSigned("-" + d) == Some(-(DigitsValue(d) as int))
  {
    var t := "-" + d;
    assert t[0] == '-' && t[1..] == d;
  }

  /** The text of a negative number: a minus sign, then the digits of its magnitude; nothing to strip. */
  lemma NegativeText(n: int)
    requires n < 0
    ensures IntToString(n) == "-" + NatToString(-n)
    ensures IsStripped(IntToString(n))
  {
    var d := NatToString(-n);
    var s := IntToString(n);
    assert s[0] == '-';
    assert s[|s| - 1] == d[|d| - 1];
  }

  /** Text with nothing to strip is parsed as it stands. */
  lemma ParseStripped(s: string)
    requires IsStripped(s)
    ensures ParseInt(s) == ParseSigned(s)
  {
    StrippedIsFixpoint(s);
  }

  /** A minus sign before the digits of a magnitude reads as the negated magnitude. */
  lemma ParseMinusDigits(m: nat)
    ensures ParseSigned("-" + NatToString(m)) == Some(-(m as int))
  {
    NatToStringDigitGroups(m);
    ParseSignedNegative(NatToString(m));
    DigitsValueOfNat(m);
  }

  lemma ParseNegativeText(n: int)
    requires n < 0
    ensures ParseInt(IntToString(n)) == Some(n)
  {
    NegativeText(n);
    ParseStripped(IntToString(n));
    ParseMinusDigits(-n);
  }

  /** The decimal text of every integer reads back as that integer. */
  lemma ParseIntRoundTrip(n: int)
    ensures ToInt(PyStr(IntToString(n))) == Some(n)
  {
    if n < 0 {
      ParseNegativeText(n);
    } else {
      ParseNatText(n);
    }
  }
}
