/**
 * `format(str, obj, needDeepGet)` (utils.ts:114-122): every `${key}` of the
 * template is replaced, left to right, by the value `key` names in `obj`.
 * The pattern `\${([^}]+)}` matches at a position exactly when the text
 * there starts with "${" and the first '}' after it closes a non-empty key;
 * where it does not match, the character is kept and the scan moves on one.
 */
module Interpolation {
  import opened Wrappers
  import opened JsValue
  import opened PathLookup

  /** The first position of `c` in `s` */
  function FirstIndexOf(s: string, c: char): (r: Option<nat>)
    ensures r.None? <==> c !in s
    ensures r.Some? ==> r.value < |s| && s[r.value] == c && c !in s[..r.value]
  {
    if s == [] then None
    else if s[0] == c then Some(0)
    else
      var rest := FirstIndexOf(s[1..], c);
      if rest.None? then None
      else
        assert s[..rest.value + 1] == [s[0]] + s[1..][..rest.value];
        Some(rest.value + 1)
  }

  /** A match of the placeholder pattern at the start of `s`, closed by the '}' at `close` */
  predicate IsPlaceholder(s: string, close: int)
  {
    2 < close < |s| && s[0] == '$' && s[1] == '{' && s[close] == '}' && '}' !in s[2..close]
  }

  /** Where the placeholder at the start of `s` closes, if one starts there */
  function PlaceholderAt(s: string): (r: Option<nat>)
    ensures forall close :: IsPlaceholder(s, close) <==> r == Some(close)
  {
    if |s| < 2 || s[0] != '$' || s[1] != '{' then None
    else
      match FirstIndexOf(s[2..], '}')
      case None => None
      case Some(k) =>
        if k == 0 then
          assert s[2] == '}';
          None
        else
          assert s[2..k + 2] == s[2..][..k];
          Some(k + 2)
  }

  /**
   * The text put in place of `${key}`: with `deep`, `deepGet(obj, key.split('.'), '')`;
   * otherwise `(obj || {})[key] || ''`. Either is turned into a string.
   */
  function Replacement(obj: Value, key: string, deep: bool): string
  {
    if deep then ToString(DeepGet(obj, Segments(Split(key, '.')), Str("")))
    else
      var v := if Truthy(obj) then Get(obj, key) else Undefined;
      if Truthy(v) then ToString(v) else ""
  }

  /** `str.replace(/\${([^}]+)}/g, ...)` */
  function Interpolate(s: string, obj: Value, deep: bool): string
    decreases |s|
  {
    if s == [] then ""
    else
      match PlaceholderAt(s)
      case Some(close) => Replacement(obj, s[2..close], deep) + Interpolate(s[close + 1..], obj, deep)
      case None => [s[0]] + Interpolate(s[1..], obj, deep)
  }

  /** `format(str, obj, needDeepGet)`: a missing or empty template gives "" */
  function Format(template: Option<string>, obj: Value, deep: bool): (r: string)
    ensures template.None? ==> r == ""
  {
    Interpolate(template.GetOr(""), obj, deep)
  }

  // ---------------------------------------------------------------------
  // The template as pieces

  /** A template read as literal text and `${key}` holes */
  datatype Piece = Text(text: string) | Hole(key: string)

  /** `t` has '$' directly before '{' at `i`, where a placeholder would open */
  predicate OpensAt(t: string, i: nat)
    requires i + 1 < |t|
  {
    t[i] == '$' && t[i + 1] == '{'
  }

  /** No placeholder can open inside `t` */
  predicate NoOpening(t: string)
  {
    forall i: nat :: i + 1 < |t| ==> !OpensAt(t, i)
  }

  /** `t` ends in a '$' that a following '{' would turn into an opening */
  predicate EndsInDollar(t: string)
  {
    t != [] && t[|t| - 1] == '$'
  }

  /** `s` starts with the '{' that would complete such an opening */
  predicate StartsWithBrace(s: string)
  {
    s != [] && s[0] == '{'
  }

  /**
   * Pieces that read back as written: no text opens a placeholder, neither
   * within itself nor together with the text after it, and every key is
   * non-empty and holds no '}'
   */
  predicate WellFormed(pieces: seq<Piece>)
  {
    forall i :: 0 <= i < |pieces| ==>
      match pieces[i]
      case Text(t) => NoOpening(t) && (EndsInDollar(t) ==> !StartsWithBrace(Source(pieces[i + 1..])))
      case Hole(k) => k != "" && '}' !in k
  }

  /** The template text the pieces spell */
  function Source(pieces: seq<Piece>): string
  {
    if pieces == [] then ""
    else
      var head := match pieces[0] case Text(t) => t case Hole(k) => "${" + k + "}";
      head + Source(pieces[1..])
  }

  /** The expected output: text kept, each hole replaced */
  function Filled(pieces: seq<Piece>, obj: Value, deep: bool): string
  {
    if pieces == [] then ""
    else
      var head := match pieces[0] case Text(t) => t case Hole(k) => Replacement(obj, k, deep);
      head + Filled(pieces[1..], obj, deep)
  }

  /** Text in which no placeholder opens passes through unchanged, '$' included */
  lemma {:induction false} LiteralPrefix(t: string, rest: string, obj: Value, deep: bool)
    requires NoOpening(t)
    requires EndsInDollar(t) ==> !StartsWithBrace(rest)
    ensures Interpolate(t + rest, obj, deep) == t + Interpolate(rest, obj, deep)
    decreases |t|
  {
    if t == [] {
      assert t + rest == rest;
    } else {
      HeadDoesNotOpen(t, rest);
      LiteralPrefix(t[1..], rest, obj, deep);
      KeptHead(t, rest, obj, deep);
    }
  }

  /** The first character of `t` is kept, and the scan goes on in the rest of `t` */
  lemma KeptHead(t: string, rest: string, obj: Value, deep: bool)
    requires t != [] && PlaceholderAt(t + rest) == None
    requires Interpolate(t[1..] + rest, obj, deep) == t[1..] + Interpolate(rest, obj, deep)
    ensures Interpolate(t + rest, obj, deep) == t + Interpolate(rest, obj, deep)
  {
    ConsConcat(t, rest);
    ConsConcat(t, Interpolate(rest, obj, deep));
  }

  /** Splitting off the first character of `t` in front of `tail` */
  lemma ConsConcat(t: string, tail: string)
    requires t != []
    ensures (t + tail)[0] == t[0] && (t + tail)[1..] == t[1..] + tail
    ensures [t[0]] + (t[1..] + tail) == t + tail
  {
    assert t == [t[0]] + t[1..];
  }

  /** No placeholder starts at the head of `t + rest`, and the rest of `t` keeps both conditions */
  lemma HeadDoesNotOpen(t: string, rest: string)
    requires t != [] && NoOpening(t)
    requires EndsInDollar(t) ==> !StartsWithBrace(rest)
    ensures PlaceholderAt(t + rest) == None
    ensures NoOpening(t[1..])
    ensures EndsInDollar(t[1..]) ==> !StartsWithBrace(rest)
  {
    var s := t + rest;
    if |t| >= 2 {
      assert !OpensAt(t, 0);
      assert s[1] == t[1];
    } else if |s| >= 2 {
      assert s[1] == rest[0];
    }
    forall i: nat | i + 1 < |t[1..]| ensures !OpensAt(t[1..], i) {
      assert !OpensAt(t, i + 1);
      assert t[1..][i] == t[i + 1] && t[1..][i + 1] == t[i + 2];
    }
    assert EndsInDollar(t[1..]) ==> EndsInDollar(t);
  }

  /** A well-formed hole is replaced and the scan goes on after its '}' */
  lemma HoleReplaced(key: string, rest: string, obj: Value, deep: bool)
    requires key != "" && '}' !in key
    ensures Interpolate("${" + key + "}" + rest, obj, deep) ==
      Replacement(obj, key, deep) + Interpolate(rest, obj, deep)
  {
    var s := "${" + key + "}" + rest;
    var close := |key| + 2;
    assert s[2..close] == key;
    assert IsPlaceholder(s, close);
    assert s[close + 1..] == rest;
  }

  /** Formatting the text of well-formed pieces yields exactly what the pieces ask for */
  lemma {:induction false} InterpolateSource(pieces: seq<Piece>, obj: Value, deep: bool)
    requires WellFormed(pieces)
    ensures Interpolate(Source(pieces), obj, deep) == Filled(pieces, obj, deep)
    decreases |pieces|
  {
    if pieces != [] {
      assert WellFormed(pieces[1..]) by {
        forall i | 0 <= i < |pieces| - 1
          ensures pieces[1..][i] == pieces[i + 1] && pieces[1..][i + 1..] == pieces[i + 2..]
        { }
      }
      InterpolateSource(pieces[1..], obj, deep);
      match pieces[0]
      case Text(t) =>
        assert pieces[0 + 1..] == pieces[1..];
        LiteralPrefix(t, Source(pieces[1..]), obj, deep);
      case Hole(k) =>
        assert "${" + k + "}" + Source(pieces[1..]) == Source(pieces);
        HoleReplaced(k, Source(pieces[1..]), obj, deep);
    }
  }

  /** A template in which no placeholder opens comes back unchanged, '$' included */
  lemma NoOpeningUnchanged(s: string, obj: Value, deep: bool)
    requires NoOpening(s)
    ensures Interpolate(s, obj, deep) == s
  {
    LiteralPrefix(s, "", obj, deep);
    assert s + "" == s;
  }

  /**
   * A template in which no placeholder starts anywhere comes back unchanged,
   * whatever `$`, `${` or `}` it holds: "a ${} b" and "x ${abc" among them
   */
  lemma {:induction false} NoPlaceholderUnchanged(s: string, obj: Value, deep: bool)
    requires forall i :: 0 <= i < |s| ==> PlaceholderAt(s[i..]) == None
    ensures Interpolate(s, obj, deep) == s
    decreases |s|
  {
    if s != [] {
      assert s[0..] == s;
      forall i | 0 <= i < |s[1..]| ensures PlaceholderAt(s[1..][i..]) == None {
        assert s[1..][i..] == s[i + 1..];
      }
      NoPlaceholderUnchanged(s[1..], obj, deep);
      assert s == [s[0]] + s[1..];
    }
  }

  /** An empty key closes no placeholder, so "a ${} b" is kept as written */
  lemma EmptyKeyExample(obj: Value, deep: bool)
    ensures Format(Some("a ${} b"), obj, deep) == "a ${} b"
  {
    var s := "a ${} b";
    forall i | 0 <= i < |s| ensures PlaceholderAt(s[i..]) == None {
      if i == 2 {
        assert !IsPlaceholder(s[2..], 2);
      }
    }
    NoPlaceholderUnchanged(s, obj, deep);
  }

  // ---------------------------------------------------------------------
  // What a hole becomes

  /**
   * In deep mode a hole names a path split at its dots: a resolved value is
   * written with `String`, even `null` or `0`, and anything else gives "".
   */
  lemma DeepReplacement(obj: Value, key: string)
    ensures Replacement(obj, key, true) ==
      var found := Resolve(obj, Split(key, '.'));
      if Truthy(obj) && found.Some? && !found.value.Undefined? then ToString(found.value) else ""
  {
    DeepGetSegments(obj, Split(key, '.'), Str(""));
  }

  /** In shallow mode only a truthy own value is written; a falsy object reads as `{}` */
  lemma ShallowReplacement(obj: Value, key: string)
    ensures Replacement(obj, key, false) ==
      if Truthy(obj) && Has(obj, key) && Truthy(Get(obj, key)) then ToString(Get(obj, key)) else ""
  {
  }

  /** For a key without dots, both modes agree on a truthy value */
  lemma ModesAgreeOnTruthyValue(obj: Value, key: string)
    requires '.' !in key && Truthy(obj) && Truthy(Get(obj, key))
    ensures Replacement(obj, key, false) == Replacement(obj, key, true) == ToString(Get(obj, key))
  {
    SplitWithoutSeparator(key, '.');
    BlankIsFalsy(obj);
    assert Walk(obj, [key]) == Walk(Get(obj, key), []);
  }

  /** Where the modes part: a present `null`, and a present `0` */
  lemma ModesDifferOnFalsyValues()
    ensures Replacement(Obj(map["a" := Null]), "a", true) == "null"
    ensures Replacement(Obj(map["a" := Null]), "a", false) == ""
    ensures Replacement(Obj(map["a" := Num(0)]), "a", true) == "0"
    ensures Replacement(Obj(map["a" := Num(0)]), "a", false) == ""
  {
    SplitWithoutSeparator("a", '.');
    assert Walk(Obj(map["a" := Null]), ["a"]) == Walk(Null, []);
    assert Walk(Obj(map["a" := Num(0)]), ["a"]) == Walk(Num(0), []);
  }

  // ---------------------------------------------------------------------
  // The behaviour utils.spec.ts:144-171 expects

  /** The output `format` gives for a template written as well-formed pieces */
  lemma FormatPieces(pieces: seq<Piece>, obj: Value, deep: bool)
    requires WellFormed(pieces)
    ensures Format(Some(Source(pieces)), obj, deep) == Filled(pieces, obj, deep)
  {
    InterpolateSource(pieces, obj, deep);
  }

  // Each example states its template once as text and once as the output
  // `format` gives for it; the two are kept apart so that the verifier does
  // not evaluate the scan over the literal text.

  function NameTemplate(): seq<Piece>
  {
    [Text("this is "), Hole("name")]
  }

  function AgeTemplate(): seq<Piece>
  {
    [Text("this is "), Hole("name"), Text(", age: "), Hole("age")]
  }

  function UserTemplate(): seq<Piece>
  {
    [Text("this is "), Hole("user.name")]
  }

  /** A literal '$' that does not open a placeholder, right before one that does */
  function PriceTemplate(): seq<Piece>
  {
    [Text("Total: $"), Hole("amount")]
  }

  lemma NameTemplateText()
    ensures Source(NameTemplate()) == "this is ${name}"
  {
  }

  lemma AgeTemplateText()
    ensures Source(AgeTemplate()) == "this is ${name}, age: ${age}"
  {
  }

  lemma UserTemplateText()
    ensures Source(UserTemplate()) == "this is ${user.name}"
  {
  }

  lemma PriceTemplateText()
    ensures Source(PriceTemplate()) == "Total: $${amount}"
  {
  }

  /** The first '$' of "$${amount}" is kept as text */
  lemma PriceExample()
    ensures Format(Some(Source(PriceTemplate())), Obj(map["amount" := Num(5)]), false) == "Total: $5"
  {
    var obj := Obj(map["amount" := Num(5)]);
    assert WellFormed(PriceTemplate()) by {
      assert NoOpening("Total: $") by {
        forall i: nat | i + 1 < |"Total: $"| ensures !OpensAt("Total: $", i) {
          assert "Total: $"[i] != '$';
        }
      }
      assert Source(PriceTemplate()[1..]) == "${amount}";
    }
    FilledTextThenHole("Total: $", "amount", obj, false);
    assert NatToString(5) == "5";
    FormatPieces(PriceTemplate(), obj, false);
  }

  lemma NamedValueExample()
    ensures Format(Some(Source(NameTemplate())), Obj(map["name" := Str("asdf")]), false) == "this is asdf"
  {
    assert WellFormed(NameTemplate());
    assert Filled(NameTemplate(), Obj(map["name" := Str("asdf")]), false) == "this is asdf";
    FormatPieces(NameTemplate(), Obj(map["name" := Str("asdf")]), false);
  }

  /** A missing value, and an object that is `null` or `undefined`, leave the hole empty */
  lemma MissingValueExample(obj: Value)
    requires obj == Obj(map[]) || IsBlank(obj)
    ensures Format(Some(Source(NameTemplate())), obj, false) == "this is "
  {
    assert WellFormed(NameTemplate());
    assert Filled(NameTemplate(), obj, false) == "this is ";
    FormatPieces(NameTemplate(), obj, false);
  }

  lemma TwoHolesExample()
    ensures Format(Some(Source(AgeTemplate())), Obj(map["name" := Str("asdf"), "age" := Num(10)]), false)
      == "this is asdf, age: 10"
  {
    var obj := Obj(map["name" := Str("asdf"), "age" := Num(10)]);
    assert WellFormed(AgeTemplate());
    TwoHolesFilled();
    FormatPieces(AgeTemplate(), obj, false);
  }

  lemma TwoHolesFilled()
    ensures Filled(AgeTemplate(), Obj(map["name" := Str("asdf"), "age" := Num(10)]), false) == "this is asdf, age: 10"
  {
    assert NatToString(10) == "10";
  }

  lemma MissingTemplateExample()
    ensures Format(None, Obj(map[]), false) == ""
  {
  }

  /** `{ user: { name } }` for any name */
  function UserRecord(name: string): Value
  {
    Obj(map["user" := Obj(map["name" := Str(name)])])
  }

  lemma DeepHoleExample(name: string)
    ensures Format(Some(Source(UserTemplate())), UserRecord(name), true) == "this is " + name
  {
    DeepHoleFormatted(name);
    FilledTextThenHole("this is ", "user.name", UserRecord(name), true);
    DeepHoleReplaced(name);
  }

  lemma DeepHoleFormatted(name: string)
    ensures Format(Some(Source(UserTemplate())), UserRecord(name), true) == Filled(UserTemplate(), UserRecord(name), true)
  {
    assert WellFormed(UserTemplate());
    FormatPieces(UserTemplate(), UserRecord(name), true);
  }

  lemma DeepHoleReplaced(name: string)
    ensures Replacement(UserRecord(name), "user.name", true) == name
  {
    assert "user.name" == "user" + ['.'] + "name";
    NestedReplacement("user", "name", Str(name));
  }

  lemma FilledTextThenHole(t: string, key: string, obj: Value, deep: bool)
    ensures Filled([Text(t), Hole(key)], obj, deep) == t + Replacement(obj, key, deep)
  {
    assert [Text(t), Hole(key)][1..] == [Hole(key)];
    assert [Hole(key)][1..] == [];
    assert Filled([Hole(key)], obj, deep) == Replacement(obj, key, deep) + Filled([], obj, deep);
    assert Replacement(obj, key, deep) + "" == Replacement(obj, key, deep);
  }

  /** In deep mode `${a.b}` reads the property `b` of the property `a` */
  lemma NestedReplacement(a: string, b: string, v: Value)
    requires '.' !in a && '.' !in b && !v.Undefined?
    ensures Replacement(Obj(map[a := Obj(map[b := v])]), a + ['.'] + b, true) == ToString(v)
  {
    var obj := Obj(map[a := Obj(map[b := v])]);
    SplitTwo(a, b);
    assert Walk(obj, [a, b]) == Walk(Obj(map[b := v]), [b]);
    assert Walk(Obj(map[b := v]), [b]) == Walk(v, []);
  }
}
