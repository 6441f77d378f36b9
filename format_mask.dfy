/**
 * `formatMask(value, option)` (utils.ts:124-207): the mask is read one
 * character at a time. A character that names a token takes the next input
 * character (or "" once the input is used up) and emits it, transformed, or
 * the token's default when the token's pattern rejects it; any other mask
 * character is emitted as it is.
 */
module Mask {
  import opened Wrappers
  import JsValue

  /**
   * `token.pattern.test(v)` on the (one-character or empty) input: the four
   * regular expressions of the built-in tokens, or any other test.
   */
  datatype Pattern =
    | AnyDigit     // `/\d/`
    | AnyAlnum     // `/[a-zA-Z0-9]/`
    | AnyLetter    // `/[a-zA-Z]/`
    | AnyText      // `/.*/`, which matches the empty string as well
    | Custom(test: string -> bool)

  /** `token.transform`: none, the three built-in ones, or any other function */
  datatype Transform = Keep | ToUpper | ToLower | ToStar | Apply(f: string -> string)

  /** `FormatMaskToken`; a missing or empty `default` is "" */
  datatype Token = Token(pattern: Pattern, default: string, transform: Transform)

  /** The `mask` option on its own, or a `FormatMaskOption` with its `tokens` */
  datatype MaskOption = MaskText(mask: string) | MaskSpec(mask: string, tokens: map<char, Token>)

  predicate IsAsciiLetter(c: char) { 'a' <= c <= 'z' || 'A' <= c <= 'Z' }

  /** Whether the pattern finds a match in `v`, which holds at most one character */
  predicate Test(p: Pattern, v: string)
  {
    match p
    case AnyDigit => v != "" && JsValue.IsDigit(v[0])
    case AnyAlnum => v != "" && (IsAsciiLetter(v[0]) || JsValue.IsDigit(v[0]))
    case AnyLetter => v != "" && IsAsciiLetter(v[0])
    case AnyText => true
    case Custom(test) => test(v)
  }

  /** The capital of a lower-case ASCII letter: the letter at the same place in 'A'..'Z' */
  function UpperChar(c: char): (u: char)
    ensures IsAsciiLetter(c) ==> 'A' <= u <= 'Z'
    ensures 'a' <= c <= 'z' ==> u as int - 'A' as int == c as int - 'a' as int
    ensures !('a' <= c <= 'z') ==> u == c
  {
    if 'a' <= c <= 'z' then (c as int - 32) as char else c
  }

  /** The lower-case letter of a capital ASCII letter: the letter at the same place in 'a'..'z' */
  function LowerChar(c: char): (l: char)
    ensures IsAsciiLetter(c) ==> 'a' <= l <= 'z'
    ensures 'A' <= c <= 'Z' ==> l as int - 'a' as int == c as int - 'A' as int
    ensures !('A' <= c <= 'Z') ==> l == c
  {
    if 'A' <= c <= 'Z' then (c as int + 32) as char else c
  }

  /** Upper and lower case undo each other on the ASCII letters */
  lemma CaseRoundTrip(c: char)
    ensures 'a' <= c <= 'z' ==> LowerChar(UpperChar(c)) == c
    ensures 'A' <= c <= 'Z' ==> UpperChar(LowerChar(c)) == c
  {
  }

  /** The transform applied to `v`; upper and lower case are those of the ASCII letters the patterns let through */
  function Transformed(t: Transform, v: string): string
  {
    match t
    case Keep => v
    case ToUpper => seq(|v|, i requires 0 <= i < |v| => UpperChar(v[i]))
    case ToLower => seq(|v|, i requires 0 <= i < |v| => LowerChar(v[i]))
    case ToStar => "*"
    case Apply(f) => f(v)
  }

  /** The built-in tokens `0`, `9`, `#`, `U`, `L` and `*` */
  function BuiltinTokens(): (t: map<char, Token>)
    ensures t.Keys == {'0', '9', '#', 'U', 'L', '*'}
  {
    map[
      '0' := Token(AnyDigit, "0", Keep),
      '9' := Token(AnyDigit, "", Keep),
      '#' := Token(AnyAlnum, "", Keep),
      'U' := Token(AnyLetter, "", ToUpper),
      'L' := Token(AnyLetter, "", ToLower),
      '*' := Token(AnyText, "", ToStar)
    ]
  }

  /** The token table: the built-ins, overridden and extended by the option's own tokens */
  function TokenTable(option: MaskOption): (t: map<char, Token>)
    ensures option.MaskText? ==> t == BuiltinTokens()
    ensures option.MaskSpec? ==> t.Keys == BuiltinTokens().Keys + option.tokens.Keys
    ensures option.MaskSpec? ==> forall c :: c in option.tokens ==> t[c] == option.tokens[c]
    ensures option.MaskSpec? ==> forall c :: c in t && c !in option.tokens ==> t[c] == BuiltinTokens()[c]
  {
    match option
    case MaskText(_) => BuiltinTokens()
    case MaskSpec(_, tokens) => BuiltinTokens() + tokens
  }

  /** What one token emits for the input `v` it took */
  function TokenOutput(t: Token, v: string): string
  {
    if !Test(t.pattern, v) then t.default else Transformed(t.transform, v)
  }

  /** `splitValue.shift() ?? ''`: the next input character, or "" when there is none */
  function NextChar(input: string): (v: string)
    ensures |v| <= 1
  {
    if input == [] then "" else [input[0]]
  }

  /** The input left after `shift` */
  function AfterShift(input: string): (rest: string)
    ensures input != [] ==> input == NextChar(input) + rest
    ensures input == [] ==> rest == []
  {
    if input == [] then "" else input[1..]
  }

  /** What the first mask character emits */
  function Emitted(c: char, input: string, tokens: map<char, Token>): string
  {
    if c !in tokens then [c] else TokenOutput(tokens[c], NextChar(input))
  }

  /** The input the first mask character leaves for the rest of the mask */
  function Remaining(c: char, input: string, tokens: map<char, Token>): string
  {
    if c !in tokens then input else AfterShift(input)
  }

  /** The output for `mask` over the remaining `input` */
  function Masked(mask: string, input: string, tokens: map<char, Token>): string
  {
    if mask == [] then ""
    else Emitted(mask[0], input, tokens) + Masked(mask[1..], Remaining(mask[0], input, tokens), tokens)
  }

  /**
   * `formatMask(value, option)` (utils.ts:154-207): an empty value gives "";
   * otherwise the mask is walked once, each token taking the next input
   * character (`splitValue.shift() ?? ''`).
   */
  method FormatMask(value: string, option: MaskOption) returns (r: string)
    ensures value == "" ==> r == ""
    ensures value != "" ==> r == Masked(option.mask, value, TokenTable(option))
  {
    if value == "" {
      return "";
    }
    var tokens := TokenTable(option);
    var mask := option.mask;
    var pending := value;
    r := "";
    for i := 0 to |mask|
      invariant r + Masked(mask[i..], pending, tokens) == Masked(mask, value, tokens)
    {
      var c := mask[i];
      ghost var before := pending;
      var emitted := "";
      if c !in tokens {
        emitted := [c];
      } else {
        var token := tokens[c];
        var v := "";
        if pending != [] {
          v := [pending[0]];
          pending := pending[1..];
        }
        if !Test(token.pattern, v) {
          if token.default != "" {
            emitted := token.default;
          }
        } else if !token.transform.Keep? {
          emitted := Transformed(token.transform, v);
        } else {
          emitted := v;
        }
      }
      assert emitted == Emitted(c, before, tokens) && pending == Remaining(c, before, tokens);
      MaskedAt(mask, i, before, tokens);
      Regroup(r + Masked(mask[i..], before, tokens), r, emitted, Masked(mask[i + 1..], pending, tokens), r + emitted);
      r := r + emitted;
    }
    assert mask[|mask|..] == [];
  }

  /** Reading the mask from position `i` */
  lemma MaskedAt(mask: string, i: nat, input: string, tokens: map<char, Token>)
    requires i < |mask|
    ensures Masked(mask[i..], input, tokens) ==
      Emitted(mask[i], input, tokens) + Masked(mask[i + 1..], Remaining(mask[i], input, tokens), tokens)
  {
    assert mask[i..][1..] == mask[i + 1..];
  }

  // ---------------------------------------------------------------------
  // Properties of the output

  /** Mask characters that are not tokens are copied, whatever the input */
  lemma {:induction false} LiteralsPassThrough(mask: string, input: string, tokens: map<char, Token>)
    requires forall i :: 0 <= i < |mask| ==> mask[i] !in tokens
    ensures Masked(mask, input, tokens) == mask
  {
    if mask != [] {
      LiteralsPassThrough(mask[1..], input, tokens);
      assert mask == [mask[0]] + mask[1..];
    }
  }

  /** How many input characters `mask` takes */
  function TokenCount(mask: string, tokens: map<char, Token>): nat
  {
    if mask == [] then 0
    else (if mask[0] in tokens then 1 else 0) + TokenCount(mask[1..], tokens)
  }

  /** The input left after `n` characters were taken (`shift` on an empty array takes nothing) */
  function Drop(input: string, n: nat): string
  {
    if n >= |input| then "" else input[n..]
  }

  /** Every token takes exactly one input character, so a mask can be read in two parts */
  lemma {:induction false} MaskedConcat(m1: string, m2: string, input: string, tokens: map<char, Token>)
    ensures Masked(m1 + m2, input, tokens) ==
      Masked(m1, input, tokens) + Masked(m2, Drop(input, TokenCount(m1, tokens)), tokens)
  {
    if m1 == [] {
      assert m1 + m2 == m2;
    } else {
      var c := m1[0];
      var next := Remaining(c, input, tokens);
      MaskedCons(m1, m2, input, tokens);
      MaskedConcat(m1[1..], m2, next, tokens);
      DropRemaining(c, input, tokens, TokenCount(m1[1..], tokens));
      Regroup(Masked(m1 + m2, input, tokens), Emitted(c, input, tokens), Masked(m1[1..], next, tokens),
        Masked(m2, Drop(next, TokenCount(m1[1..], tokens)), tokens), Masked(m1, input, tokens));
    }
  }

  lemma Regroup(whole: string, e: string, head: string, tail: string, first: string)
    requires whole == e + (head + tail) && first == e + head
    ensures whole == first + tail
  {
  }

  /** The first character of a non-empty first part */
  lemma MaskedCons(m1: string, m2: string, input: string, tokens: map<char, Token>)
    requires m1 != []
    ensures Masked(m1 + m2, input, tokens) ==
      Emitted(m1[0], input, tokens) + Masked(m1[1..] + m2, Remaining(m1[0], input, tokens), tokens)
    ensures Masked(m1, input, tokens) ==
      Emitted(m1[0], input, tokens) + Masked(m1[1..], Remaining(m1[0], input, tokens), tokens)
    ensures TokenCount(m1, tokens) == (if m1[0] in tokens then 1 else 0) + TokenCount(m1[1..], tokens)
  {
    assert (m1 + m2)[0] == m1[0];
    assert (m1 + m2)[1..] == m1[1..] + m2;
  }

  lemma DropRemaining(c: char, input: string, tokens: map<char, Token>, n: nat)
    ensures Drop(Remaining(c, input, tokens), n) == Drop(input, (if c in tokens then 1 else 0) + n)
  {
    if c in tokens && input != [] && n < |input| - 1 {
      assert input[1..][n..] == input[1 + n..];
    }
  }

  /** With the built-in tokens every mask character yields at most one output character */
  lemma {:induction false} BuiltinOutputBound(mask: string, input: string)
    ensures |Masked(mask, input, BuiltinTokens())| <= |mask|
  {
    if mask != [] {
      BuiltinOutputBound(mask[1..], Remaining(mask[0], input, BuiltinTokens()));
    }
  }

  /** `n` copies of the mask character `c` */
  function Run(c: char, n: nat): (m: string)
    ensures |m| == n
    ensures forall i :: 0 <= i < n ==> m[i] == c
  {
    seq(n, _ => c)
  }

  lemma RunTail(c: char, n: nat)
    requires n > 0
    ensures Run(c, n)[0] == c && Run(c, n)[1..] == Run(c, n - 1)
  {
  }

  /** The first character of the value a token accepts */
  predicate AcceptsAll(t: Token, value: string)
  {
    forall i :: 0 <= i < |value| ==> Test(t.pattern, [value[i]])
  }

  /** A run of a token without transform, as long as a value it accepts, copies the value */
  lemma {:induction false} CopyingRun(c: char, value: string, tokens: map<char, Token>)
    requires c in tokens && tokens[c].transform.Keep? && AcceptsAll(tokens[c], value)
    ensures Masked(Run(c, |value|), value, tokens) == value
  {
    if value != [] {
      RunTail(c, |value|);
      assert AcceptsAll(tokens[c], value[1..]) by {
        forall i | 0 <= i < |value| - 1 ensures Test(tokens[c].pattern, [value[1..][i]]) {
          assert value[1..][i] == value[i + 1];
        }
      }
      assert Test(tokens[c].pattern, [value[0]]);
      CopyingRun(c, value[1..], tokens);
      assert value == [value[0]] + value[1..];
    }
  }

  /** A run of `U` over letters upper-cases them, a run of `L` lower-cases them */
  lemma {:induction false} CaseRun(c: char, value: string)
    requires c == 'U' || c == 'L'
    requires forall i :: 0 <= i < |value| ==> IsAsciiLetter(value[i])
    ensures Masked(Run(c, |value|), value, BuiltinTokens()) == Transformed(BuiltinTokens()[c].transform, value)
  {
    var t := BuiltinTokens()[c].transform;
    if value != [] {
      RunTail(c, |value|);
      CaseRun(c, value[1..]);
      assert Transformed(t, value) == Transformed(t, [value[0]]) + Transformed(t, value[1..]);
    }
  }

  /** A run of `*` emits as many '*', however much input is left */
  lemma {:induction false} StarRun(n: nat, value: string)
    ensures Masked(Run('*', n), value, BuiltinTokens()) == Run('*', n)
  {
    if n > 0 {
      RunTail('*', n);
      StarRun(n - 1, AfterShift(value));
      assert Run('*', n) == ['*'] + Run('*', n - 1);
    }
  }

  /** A literal part of the mask is copied and takes no input */
  lemma LiteralThen(text: string, rest: string, input: string, tokens: map<char, Token>)
    requires forall i :: 0 <= i < |text| ==> text[i] !in tokens
    ensures Masked(text + rest, input, tokens) == text + Masked(rest, input, tokens)
  {
    MaskedConcat(text, rest, input, tokens);
    LiteralsPassThrough(text, input, tokens);
    NoTokensTakeNothing(text, tokens);
  }

  lemma {:induction false} NoTokensTakeNothing(text: string, tokens: map<char, Token>)
    requires forall i :: 0 <= i < |text| ==> text[i] !in tokens
    ensures TokenCount(text, tokens) == 0
  {
    if text != [] {
      NoTokensTakeNothing(text[1..], tokens);
    }
  }

  /** A copying run takes exactly the characters it copies */
  lemma CopyingRunThen(c: char, value: string, rest: string, more: string, tokens: map<char, Token>)
    requires c in tokens && tokens[c].transform.Keep? && AcceptsAll(tokens[c], value)
    ensures Masked(Run(c, |value|) + rest, value + more, tokens) == value + Masked(rest, more, tokens)
  {
    AcceptsAllPrefix(tokens[c], value, more);
    MaskedConcat(Run(c, |value|), rest, value + more, tokens);
    CopyingRun(c, value, tokens);
    CopyingRunPrefix(c, value, more, tokens);
    RunTokenCount(c, |value|, tokens);
    assert Drop(value + more, |value|) == more;
  }

  lemma AcceptsAllPrefix(t: Token, value: string, more: string)
    requires AcceptsAll(t, value)
    ensures AcceptsAll(t, (value + more)[..|value|])
  {
    assert (value + more)[..|value|] == value;
  }

  /** A run of a token reads only as much input as it is long */
  lemma {:induction false} CopyingRunPrefix(c: char, value: string, more: string, tokens: map<char, Token>)
    requires c in tokens
    ensures Masked(Run(c, |value|), value + more, tokens) == Masked(Run(c, |value|), value, tokens)
  {
    if value != [] {
      RunTail(c, |value|);
      assert (value + more)[0] == value[0];
      assert (value + more)[1..] == value[1..] + more;
      CopyingRunPrefix(c, value[1..], more, tokens);
    }
  }

  lemma {:induction false} RunTokenCount(c: char, n: nat, tokens: map<char, Token>)
    ensures TokenCount(Run(c, n), tokens) == if c in tokens then n else 0
  {
    if n > 0 {
      RunTail(c, n);
      RunTokenCount(c, n - 1, tokens);
    }
  }

  /**
   * Once the input is used up, `0` still pads with '0' and `*` still emits
   * '*' (its pattern accepts the empty string); the other tokens emit nothing.
   */
  function AfterInput(mask: string): (r: string)
  {
    if mask == [] then ""
    else
      var head := if mask[0] in {'9', '#', 'U', 'L'} then "" else [mask[0]];
      head + AfterInput(mask[1..])
  }

  lemma {:induction false} ExhaustedInput(mask: string)
    ensures Masked(mask, "", BuiltinTokens()) == AfterInput(mask)
  {
    if mask != [] {
      ExhaustedInput(mask[1..]);
    }
  }

  // ---------------------------------------------------------------------
  // The behaviour utils.spec.ts:174-219 expects

  lemma DigitsAccepted(value: string)
    requires forall i :: 0 <= i < |value| ==> JsValue.IsDigit(value[i])
    ensures AcceptsAll(BuiltinTokens()['9'], value) && AcceptsAll(BuiltinTokens()['#'], value)
  {
  }

  /**
   * `#` takes ASCII letters and digits only, although the comment at
   * utils.ts:144 calls it any character: other characters are dropped.
   */
  lemma HashAcceptsAlphanumerics(c: char, input: string)
    ensures Test(BuiltinTokens()['#'].pattern, [c]) <==> IsAsciiLetter(c) || JsValue.IsDigit(c)
    ensures !(IsAsciiLetter(c) || JsValue.IsDigit(c)) ==> Masked("#", [c] + input, BuiltinTokens()) == ""
  {
    if !(IsAsciiLetter(c) || JsValue.IsDigit(c)) {
      assert "#"[1..] == "";
    }
  }

  /** One token reads one input character */
  lemma TokenThen(c: char, x: char, rest: string, more: string, tokens: map<char, Token>)
    requires c in tokens
    ensures Masked([c] + rest, [x] + more, tokens) == TokenOutput(tokens[c], [x]) + Masked(rest, more, tokens)
  {
    assert ([c] + rest)[1..] == rest;
    assert ([x] + more)[1..] == more;
  }

  // Each example below takes the facts about its literal texts from a
  // lemma of their own, which keeps every proof small.

  lemma BracketsTexts()
    ensures "(###)" == "(" + (Run('#', 3) + ")")
    ensures "(" + ("123" + ")") == "(123)"
  {
  }

  lemma BracketsExample()
    ensures Masked("(###)", "123", BuiltinTokens()) == "(123)"
  {
    var t := BuiltinTokens();
    BracketsTexts();
    DigitsAccepted("123");
    LiteralThen("(", Run('#', 3) + ")", "123", t);
    assert "123" == "123" + "";
    CopyingRunThen('#', "123", ")", "", t);
    LiteralsPassThrough(")", "", t);
  }

  lemma CountryCodeTexts()
    ensures "+86 ###########" == "+86 " + Run('#', 11)
    ensures "+86 " + "15900000000" == "+86 15900000000"
  {
  }

  lemma CountryCodeExample()
    ensures Masked("+86 ###########", "15900000000", BuiltinTokens()) == "+86 15900000000"
  {
    CountryCodeTexts();
    DigitsAccepted("15900000000");
    LiteralThen("+86 ", Run('#', 11), "15900000000", BuiltinTokens());
    CopyingRun('#', "15900000000", BuiltinTokens());
  }

  lemma DashesTexts()
    ensures "#-#-#" == ['#'] + ("-" + (['#'] + ("-" + (['#'] + ""))))
    ensures "123" == ['1'] + (['2'] + (['3'] + ""))
    ensures "1" + ("-" + ("2" + ("-" + ("3" + "")))) == "1-2-3"
  {
  }

  lemma DashesExample()
    ensures Masked("#-#-#", "123", BuiltinTokens()) == "1-2-3"
  {
    var t := BuiltinTokens();
    DashesTexts();
    TokenThen('#', '1', "-" + (['#'] + ("-" + (['#'] + ""))), ['2'] + (['3'] + ""), t);
    LiteralThen("-", ['#'] + ("-" + (['#'] + "")), ['2'] + (['3'] + ""), t);
    TokenThen('#', '2', "-" + (['#'] + ""), ['3'] + "", t);
    LiteralThen("-", ['#'] + "", ['3'] + "", t);
    TokenThen('#', '3', "", "", t);
  }

  lemma HiddenDigitsTexts()
    ensures "999****9999" == Run('9', 3) + (Run('*', 4) + Run('9', 4))
    ensures "15900000000" == "159" + "00000000"
    ensures Drop("00000000", 4) == "0000"
    ensures "159" + (Run('*', 4) + "0000") == "159****0000"
  {
  }

  lemma HiddenDigitsExample()
    ensures Masked("999****9999", "15900000000", BuiltinTokens()) == "159****0000"
  {
    var t := BuiltinTokens();
    HiddenDigitsTexts();
    DigitsAccepted("159");
    DigitsAccepted("0000");
    CopyingRunThen('9', "159", Run('*', 4) + Run('9', 4), "00000000", t);
    MaskedConcat(Run('*', 4), Run('9', 4), "00000000", t);
    StarRun(4, "00000000");
    RunTokenCount('*', 4, t);
    CopyingRun('9', "0000", t);
  }

  lemma UpperExample()
    ensures Masked("UUU", "aBc", BuiltinTokens()) == "ABC"
  {
    assert "UUU" == Run('U', 3);
    CaseRun('U', "aBc");
  }

  lemma LowerExample()
    ensures Masked("LLL", "ABc", BuiltinTokens()) == "abc"
  {
    assert "LLL" == Run('L', 3);
    CaseRun('L', "ABc");
  }

  lemma PhoneGroupsTexts()
    ensures "+86 999-9999-9999" == "+86 " + (Run('9', 3) + ("-" + (Run('9', 4) + ("-" + Run('9', 4)))))
    ensures "15900000000" == "159" + ("0000" + "0000")
    ensures "+86 " + ("159" + ("-" + ("0000" + ("-" + "0000")))) == "+86 159-0000-0000"
  {
  }

  lemma PhoneGroupsExample()
    ensures Masked("+86 999-9999-9999", "15900000000", BuiltinTokens()) == "+86 159-0000-0000"
  {
    var t := BuiltinTokens();
    PhoneGroupsTexts();
    DigitsAccepted("159");
    LiteralThen("+86 ", Run('9', 3) + ("-" + (Run('9', 4) + ("-" + Run('9', 4)))), "159" + ("0000" + "0000"), t);
    CopyingRunThen('9', "159", "-" + (Run('9', 4) + ("-" + Run('9', 4))), "0000" + "0000", t);
    PhoneGroupsTail();
  }

  lemma PhoneGroupsTail()
    ensures Masked("-" + (Run('9', 4) + ("-" + Run('9', 4))), "0000" + "0000", BuiltinTokens())
      == "-" + ("0000" + ("-" + "0000"))
  {
    var t := BuiltinTokens();
    DigitsAccepted("0000");
    LiteralThen("-", Run('9', 4) + ("-" + Run('9', 4)), "0000" + "0000", t);
    CopyingRunThen('9', "0000", "-" + Run('9', 4), "0000", t);
    LiteralThen("-", Run('9', 4), "0000", t);
    CopyingRun('9', "0000", t);
  }

  lemma ZeroPadExample()
    ensures Masked("900", "1", BuiltinTokens()) == "100"
  {
    var t := BuiltinTokens();
    assert "900" == ['9'] + "00";
    assert "1" == ['1'] + "";
    TokenThen('9', '1', "00", "", t);
    ExhaustedInput("00");
  }

  lemma CustomTokenTexts()
    ensures "CC999" == ['C'] + (['C'] + Run('9', 3))
    ensures "你好123" == ['你'] + (['好'] + "123")
    ensures "N" + ("H" + "123") == "NH123"
  {
  }

  /** A custom token reads one character like a built-in one, and may emit anything */
  lemma CustomTokenExample(f: string -> string)
    requires f("你") == "N" && f("好") == "H"
    ensures Masked("CC999", "你好123", TokenTable(MaskSpec("CC999", map['C' := Token(AnyText, "", Apply(f))]))) == "NH123"
  {
    var t := TokenTable(MaskSpec("CC999", map['C' := Token(AnyText, "", Apply(f))]));
    CustomTable(f);
    CustomTokenTexts();
    TokenThen('C', '你', ['C'] + Run('9', 3), ['好'] + "123", t);
    TokenThen('C', '好', Run('9', 3), "123", t);
  }

  lemma CustomTable(f: string -> string)
    requires f("你") == "N" && f("好") == "H"
    ensures var t := TokenTable(MaskSpec("CC999", map['C' := Token(AnyText, "", Apply(f))]));
      'C' in t && TokenOutput(t['C'], ['你']) == "N" && TokenOutput(t['C'], ['好']) == "H" &&
      Masked(Run('9', 3), "123", t) == "123"
  {
    var t := TokenTable(MaskSpec("CC999", map['C' := Token(AnyText, "", Apply(f))]));
    assert t['C'] == Token(AnyText, "", Apply(f));
    assert t['9'] == BuiltinTokens()['9'];
    DigitsAccepted("123");
    CopyingRun('9', "123", t);
  }

  /** After the input runs out, `*` still emits '*' */
  lemma StarAfterInputExample()
    ensures Masked("9*", "1", BuiltinTokens()) == "1*"
  {
    var t := BuiltinTokens();
    assert "9*" == ['9'] + "*";
    assert "1" == ['1'] + "";
    TokenThen('9', '1', "*", "", t);
    ExhaustedInput("*");
  }

  /** A character a token rejects is used up, not kept for the next token */
  lemma RejectedCharacterExample()
    ensures Masked("99", "a1", BuiltinTokens()) == "1"
  {
    var t := BuiltinTokens();
    assert "99" == ['9'] + ['9'];
    assert "a1" == ['a'] + ['1'];
    TokenThen('9', 'a', ['9'], ['1'], t);
    assert ['9'] == ['9'] + "" && ['1'] == ['1'] + "";
    TokenThen('9', '1', "", "", t);
  }
}
