/**
 * The JavaScript values that the helpers of utils.ts work on, with the few
 * language operations they rely on: truthiness, `typeof v === 'object'`,
 * property access `v[k]`, `String(v)`, `String.prototype.split` on a
 * single character, and the decimal strings that `Object.keys` gives for
 * array indices.
 */
module JsValue {

  /**
   * A JavaScript value. Numbers are integers (no NaN, no fractions); a
   * function is known by an identity and by the source text that `String(f)`
   * gives; arrays and plain objects are values (a host object such as a
   * `Date` is an `Obj` with its own enumerable properties, usually none).
   */
  datatype Value =
    | Undefined
    | Null
    | Bool(b: bool)
    | Num(n: int)
    | Str(s: string)
    | Fn(id: nat, source: string)
    | Arr(elems: seq<Value>)
    | Obj(fields: map<string, Value>)

  /** `typeof v === 'object'` (true of `null` as well) */
  predicate IsObject(v: Value)
  {
    v.Null? || v.Arr? || v.Obj?
  }

  /** `v == null`, which is what `isBlank` computes (utils.ts:84-86) */
  predicate IsBlank(v: Value)
  {
    v.Undefined? || v.Null?
  }

  /** `!!v` */
  predicate Truthy(v: Value)
  {
    match v
    case Undefined => false
    case Null => false
    case Bool(b) => b
    case Num(n) => n != 0
    case Str(s) => s != ""
    case _ => true
  }

  lemma BlankIsFalsy(v: Value)
    ensures IsBlank(v) ==> !Truthy(v)
    ensures IsObject(v) && !IsBlank(v) ==> Truthy(v)
  {
  }

  // ---------------------------------------------------------------------
  // Decimal strings of natural numbers (array index keys, `String(n)`)

  predicate IsDigit(c: char)
  {
    '0' <= c <= '9'
  }

  function DigitChar(d: nat): (c: char)
    requires d < 10
    ensures IsDigit(c)
  {
    (48 + d) as char
  }

  function DigitValue(c: char): nat
  {
    if IsDigit(c) then c as int - 48 else 0
  }

  /** The decimal representation of `n`, as `String(n)` writes it */
  function NatToString(n: nat): (s: string)
    ensures |s| > 0
    ensures forall i :: 0 <= i < |s| ==> IsDigit(s[i])
    ensures |s| > 1 ==> s[0] != '0'
  {
    if n < 10 then [DigitChar(n)] else NatToString(n / 10) + [DigitChar(n % 10)]
  }

  /** The number a string of decimal digits denotes (non-digits count as 0) */
  function DigitsValue(s: string): nat
  {
    if s == [] then 0 else DigitsValue(s[..|s| - 1]) * 10 + DigitValue(s[|s| - 1])
  }

  lemma {:induction false} NatToStringRoundTrip(n: nat)
    ensures DigitsValue(NatToString(n)) == n
  {
    if n >= 10 {
      var s := NatToString(n);
      assert s[..|s| - 1] == NatToString(n / 10);
      NatToStringRoundTrip(n / 10);
    }
  }

  lemma NatToStringInjective(a: nat, b: nat)
    ensures NatToString(a) == NatToString(b) ==> a == b
  {
    NatToStringRoundTrip(a);
    NatToStringRoundTrip(b);
  }

  /** `Object.keys` of an array of length `n`: "0", "1", ..., the decimal indices */
  function ArrayKeys(n: nat): set<string>
  {
    set i | 0 <= i < n :: NatToString(i)
  }

  /** One more element adds the key of its index */
  lemma ArrayKeysGrow(n: nat)
    ensures ArrayKeys(n + 1) == ArrayKeys(n) + {NatToString(n)}
  {
    forall k | k in ArrayKeys(n + 1) ensures k in ArrayKeys(n) + {NatToString(n)} {
      var i :| 0 <= i < n + 1 && NatToString(i) == k;
      if i < n {
        assert k in ArrayKeys(n);
      }
    }
  }

  /** `k` is the canonical decimal spelling of an index below `n` */
  predicate IsArrayIndex(k: string, n: nat)
  {
    DigitsValue(k) < n && NatToString(DigitsValue(k)) == k
  }

  lemma ArrayKeysAreIndices(n: nat)
    ensures forall k :: k in ArrayKeys(n) <==> IsArrayIndex(k, n)
  {
    forall k | k in ArrayKeys(n) ensures IsArrayIndex(k, n) {
      var i :| 0 <= i < n && NatToString(i) == k;
      NatToStringRoundTrip(i);
    }
  }

  // ---------------------------------------------------------------------
  // Property access

  /** `o[k]` on a plain object whose own properties are `fields` */
  function Field(fields: map<string, Value>, k: string): Value
  {
    if k in fields then fields[k] else Undefined
  }

  /** `k in v`, restricted to own properties: object keys, array indices and `length` */
  predicate Has(v: Value, k: string)
  {
    match v
    case Obj(f) => k in f
    case Arr(e) => k == "length" || IsArrayIndex(k, |e|)
    case _ => false
  }

  /** `v[k]` for a value that is not `null`/`undefined`; a missing property reads `undefined` */
  function Get(v: Value, k: string): (r: Value)
    ensures !Has(v, k) ==> r == Undefined
  {
    match v
    case Obj(f) => Field(f, k)
    case Arr(e) =>
      if k == "length" then Num(|e|)
      else if IsArrayIndex(k, |e|) then e[DigitsValue(k)]
      else Undefined
    case _ => Undefined
  }

  // ---------------------------------------------------------------------
  // Strings

  /** `s.split(sep)` for a one-character separator */
  function Split(s: string, sep: char): (parts: seq<string>)
    ensures |parts| >= 1
  {
    if s == [] then [""]
    else
      var rest := Split(s[1..], sep);
      if s[0] == sep then [""] + rest else [[s[0]] + rest[0]] + rest[1..]
  }

  /** `parts.join(sep)` */
  function Join(parts: seq<string>, sep: char): string
  {
    if parts == [] then ""
    else if |parts| == 1 then parts[0]
    else parts[0] + [sep] + Join(parts[1..], sep)
  }

  /** No part holds the separator */
  lemma {:induction false} SplitPartsOmitSeparator(s: string, sep: char)
    ensures forall i :: 0 <= i < |Split(s, sep)| ==> sep !in Split(s, sep)[i]
  {
    if s != [] {
      SplitPartsOmitSeparator(s[1..], sep);
      var rest := Split(s[1..], sep);
      if s[0] != sep {
        var parts := [[s[0]] + rest[0]] + rest[1..];
        assert forall i :: 1 <= i < |parts| ==> parts[i] == rest[i];
      }
    }
  }

  /** Splitting and joining again on the same separator gives back the string */
  lemma {:induction false} JoinSplit(s: string, sep: char)
    ensures Join(Split(s, sep), sep) == s
  {
    if s != [] {
      var rest := Split(s[1..], sep);
      JoinSplit(s[1..], sep);
      if s[0] == sep {
        assert Split(s, sep) == [""] + rest;
        assert Join([""] + rest, sep) == "" + [sep] + Join(rest, sep);
        assert s == [s[0]] + s[1..];
      } else {
        var parts := [[s[0]] + rest[0]] + rest[1..];
        assert Split(s, sep) == parts;
        if |rest| == 1 {
          assert Join(parts, sep) == [s[0]] + rest[0];
        } else {
          assert parts[1..] == rest[1..];
          assert Join(parts, sep) == [s[0]] + (rest[0] + [sep] + Join(rest[1..], sep));
        }
        assert s == [s[0]] + s[1..];
      }
    }
  }

  /** `String(v)` */
  function ToString(v: Value): string
  {
    match v
    case Undefined => "undefined"
    case Null => "null"
    case Bool(b) => if b then "true" else "false"
    case Num(n) => if n < 0 then "-" + NatToString(-n) else NatToString(n)
    case Str(s) => s
    case Fn(_, source) => source
    case Arr(e) =>
      // Array.prototype.join(","): null and undefined elements become ""
      Join(seq(|e|, i requires 0 <= i < |e| => if IsBlank(e[i]) then "" else ToString(e[i])), ',')
    case Obj(_) => "[object Object]"
  }

  /**
   * `toBoolean(value, defaultValue)` (utils.ts:88-93): the default for
   * `null`/`undefined`, otherwise whether `String(value)` differs from "false".
   */
  function ToBoolean(value: Value, default: Value): Value
    requires default.Bool? || IsBlank(default)
  {
    if IsBlank(value) then default else Bool(ToString(value) != "false")
  }

  /** Only `false` and "false" are false, among primitives that are not blank */
  lemma ToBooleanOfPrimitive(value: Value, default: Value)
    requires default.Bool? || IsBlank(default)
    requires value.Bool? || value.Num? || value.Str? || value.Obj?
    ensures ToBoolean(value, default) == Bool(false) <==> value == Bool(false) || value == Str("false")
    ensures ToBoolean(value, default).Bool?
  {
    if value.Num? {
      var n := value.n;
      var t := if n < 0 then "-" + NatToString(-n) else NatToString(n);
      assert t[0] == '-' || IsDigit(t[0]);
      assert t != "false" by { assert "false"[0] == 'f'; }
    }
  }

  /** The default applies to blank values only; an array reads through `String` */
  lemma ToBooleanExamples()
    ensures ToBoolean(Null, Bool(true)) == Bool(true)
    ensures ToBoolean(Undefined, Null) == Null
    ensures ToBoolean(Num(0), Bool(true)) == Bool(true)
    ensures ToBoolean(Str(""), Bool(false)) == Bool(true)
    ensures ToBoolean(Arr([Str("false")]), Bool(true)) == Bool(false)
  {
    assert ToString(Arr([Str("false")])) == "false";
  }
}
