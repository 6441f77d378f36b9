/**
 * `deepGet(obj, path, defaultValue)` (utils.ts:10-17): the value at a path
 * of property names, or the default on any structural miss. The library
 * `get` it delegates to is modelled as lodash defines it for such paths:
 * the path is turned into segments (`castPath`), the value is walked one
 * segment at a time while it is not `null`/`undefined` (`baseGet`), and an
 * `undefined` outcome becomes the default.
 */
module PathLookup {
  import opened Wrappers
  import opened JsValue

  /** The `path` argument: `null`/`undefined`, an array of segments, or a dotted string */
  datatype Path = NoPath | Segments(keys: seq<string>) | Dotted(text: string)

  /** `path.length` */
  function PathLength(p: Path): nat
    requires !p.NoPath?
  {
    match p
    case Segments(keys) => |keys|
    case Dotted(text) => |text|
  }

  /**
   * lodash `castPath`: an array is used as it is; a string is one key when it
   * has no dot or names a property of `obj` outright, and is split at its
   * dots otherwise.
   */
  function CastPath(obj: Value, p: Path): (segs: seq<string>)
    requires !p.NoPath?
    ensures p.Segments? ==> segs == p.keys
    ensures p.Dotted? ==> Join(segs, '.') == p.text
  {
    match p
    case Segments(keys) => keys
    case Dotted(text) =>
      if '.' !in text || Has(obj, text) then [text]
      else
        JoinSplit(text, '.');
        Split(text, '.')
  }

  /** lodash `baseGet`: `undefined` as soon as a `null`/`undefined` is met before the last segment */
  function Walk(v: Value, segs: seq<string>): Value
    decreases |segs|
  {
    if segs == [] then v
    else if IsBlank(v) then Undefined
    else Walk(Get(v, segs[0]), segs[1..])
  }

  /** `deepGet(obj, path, defaultValue)` (utils.ts:10-17) */
  function DeepGet(obj: Value, path: Path, default: Value): Value
  {
    if !Truthy(obj) || path.NoPath? || PathLength(path) == 0 then default
    else
      var found := Walk(obj, CastPath(obj, path));
      if found.Undefined? then default else found
  }

  /**
   * The reference meaning of a path: the value reached when every segment
   * names a property of the value before it, and nothing otherwise.
   */
  function Resolve(v: Value, segs: seq<string>): Option<Value>
    decreases |segs|
  {
    if segs == [] then Some(v)
    else if !Has(v, segs[0]) then None
    else Resolve(Get(v, segs[0]), segs[1..])
  }

  /** The walk finds exactly what the path resolves to, and `undefined` where it does not resolve */
  lemma {:induction false} WalkResolves(v: Value, segs: seq<string>)
    ensures Walk(v, segs) == Resolve(v, segs).GetOr(Undefined)
    decreases |segs|
  {
    if segs != [] && !IsBlank(v) {
      var next := Get(v, segs[0]);
      if Has(v, segs[0]) {
        WalkResolves(next, segs[1..]);
      } else {
        assert next == Undefined;
        assert segs[1..] == [] || IsBlank(next);
      }
    }
  }

  /**
   * `deepGet` with segments returns the resolved value, even a falsy one
   * such as `0`, `''`, `false` or `null`, and the default in every other case:
   * a falsy object, an empty path, a missing segment, or a resolved `undefined`.
   */
  lemma DeepGetSegments(obj: Value, keys: seq<string>, default: Value)
    ensures DeepGet(obj, Segments(keys), default) ==
      if Truthy(obj) && keys != [] && Resolve(obj, keys).Some? && !Resolve(obj, keys).value.Undefined?
      then Resolve(obj, keys).value
      else default
  {
    WalkResolves(obj, keys);
  }

  /** The default comes back when there is no object or no path (utils.ts:15) */
  lemma DeepGetGuards(obj: Value, path: Path, default: Value)
    ensures !Truthy(obj) ==> DeepGet(obj, path, default) == default
    ensures DeepGet(obj, NoPath, default) == default
    ensures DeepGet(obj, Segments([]), default) == default
    ensures DeepGet(obj, Dotted(""), default) == default
  {
  }

  /** A dotted string resolves as the segments between its dots, unless it names a property itself */
  lemma DottedIsSegments(obj: Value, text: string, default: Value)
    requires text != ""
    requires '.' in text ==> !Has(obj, text)
    ensures DeepGet(obj, Dotted(text), default) == DeepGet(obj, Segments(Split(text, '.')), default)
  {
    if '.' !in text {
      SplitWithoutSeparator(text, '.');
    }
  }

  /** A string without the separator splits into itself */
  lemma {:induction false} SplitWithoutSeparator(s: string, sep: char)
    requires sep !in s
    ensures Split(s, sep) == [s]
  {
    if s != [] {
      assert s == [s[0]] + s[1..];
      assert sep !in s[1..];
      SplitWithoutSeparator(s[1..], sep);
    }
  }

  /** A dotted string that names a property outright is looked up as one key (lodash `isKey`) */
  lemma DottedLiteralKey(obj: Value, text: string, default: Value)
    requires Truthy(obj) && '.' in text && Has(obj, text)
    ensures DeepGet(obj, Dotted(text), default) ==
      if Get(obj, text).Undefined? then default else Get(obj, text)
  {
    BlankIsFalsy(obj);
    assert text != "";
    assert CastPath(obj, Dotted(text)) == [text];
    assert Walk(obj, [text]) == Walk(Get(obj, text), []);
  }

  // ---------------------------------------------------------------------
  // The behaviour utils.spec.ts:12-59 expects

  function Tree(): Value
  {
    Obj(map["response" := Obj(map["list" := Arr([]), "total" := Num(10)]), "status" := Str("ok")])
  }

  lemma SegmentExamples()
    ensures DeepGet(Tree(), Segments(["status"]), Undefined) == Str("ok")
    ensures DeepGet(Tree(), Segments(["response", "total"]), Undefined) == Num(10)
    ensures DeepGet(Tree(), Segments(["status11"]), Str("aa")) == Str("aa")
    ensures DeepGet(Tree(), Segments(["response", "totala"]), Str("aa")) == Str("aa")
  {
    assert ["response", "total"][1..] == ["total"];
    assert ["response", "totala"][1..] == ["totala"];
  }

  lemma DefaultExamples()
    ensures DeepGet(Tree(), NoPath, Str("aa")) == Str("aa")
    ensures DeepGet(Tree(), Segments([]), Str("aa")) == Str("aa")
    ensures DeepGet(Null, Segments(["status11"]), Str("aa")) == Str("aa")
  {
  }

  lemma SplitResponseTotal()
    ensures Split("response.total", '.') == ["response", "total"]
  {
    assert "response.total" == "response" + ['.'] + "total";
    SplitTwo("response", "total");
  }

  lemma SplitResZero()
    ensures Split("res.zero", '.') == ["res", "zero"]
  {
    assert "res.zero" == "res" + ['.'] + "zero";
    SplitTwo("res", "zero");
  }

  lemma SplitResAddressCity()
    ensures Split("res.address.city", '.') == ["res", "address", "city"]
  {
    assert "res.address.city" == "res" + ['.'] + "address" + ['.'] + "city";
    SplitThree("res", "address", "city");
  }

  lemma SplitThree(a: string, b: string, c: string)
    requires '.' !in a && '.' !in b && '.' !in c
    ensures Split(a + ['.'] + b + ['.'] + c, '.') == [a, b, c]
  {
    assert a + ['.'] + b + ['.'] + c == a + ['.'] + (b + ['.'] + c);
    SplitAt(a, b + ['.'] + c, '.');
    SplitTwo(b, c);
  }

  lemma SplitTwo(a: string, b: string)
    requires '.' !in a && '.' !in b
    ensures Split(a + ['.'] + b, '.') == [a, b]
  {
    SplitAt(a, b, '.');
    SplitWithoutSeparator(b, '.');
  }

  /** Splitting `a + sep + b` where `a` has no separator gives `a` followed by the parts of `b` */
  lemma {:induction false} SplitAt(a: string, b: string, sep: char)
    requires sep !in a
    ensures Split(a + [sep] + b, sep) == [a] + Split(b, sep)
  {
    if a != [] {
      assert (a + [sep] + b)[1..] == a[1..] + [sep] + b;
      assert sep !in a[1..];
      SplitAt(a[1..], b, sep);
      assert a == [a[0]] + a[1..];
    }
  }

  lemma DottedPathExample()
    ensures DeepGet(Tree(), Dotted("response.total"), Undefined) == Num(10)
  {
    SplitResponseTotal();
    assert !Has(Tree(), "response.total");
    DottedIsSegments(Tree(), "response.total", Undefined);
    SegmentExamples();
  }

  lemma DottedKeyExample()
    ensures DeepGet(Tree(), Dotted("status"), Undefined) == Str("ok")
  {
    DottedIsSegments(Tree(), "status", Undefined);
    SplitWithoutSeparator("status", '.');
    SegmentExamples();
  }

  /** A missing middle segment gives `undefined` */
  lemma MissingMiddleExample()
    ensures DeepGet(Obj(map["res" := Obj(map[])]), Dotted("res.address.city"), Undefined) == Undefined
  {
    SplitResAddressCity();
    var a := Obj(map["res" := Obj(map[])]);
    assert !Has(a, "res.address.city");
    DottedIsSegments(a, "res.address.city", Undefined);
    assert ["res", "address", "city"][1..] == ["address", "city"];
  }

  /** A present `0` is returned, not the default */
  lemma FalsyValueExample()
    ensures DeepGet(ZeroTree(), Dotted("res.zero"), Str("aa")) == Num(0)
  {
    SplitResZero();
    assert !Has(ZeroTree(), "res.zero");
    DottedIsSegments(ZeroTree(), "res.zero", Str("aa"));
    FalsyValueSegments();
  }

  function ZeroTree(): Value
  {
    Obj(map["res" := Obj(map["zero" := Num(0)])])
  }

  lemma FalsyValueSegments()
    ensures DeepGet(ZeroTree(), Segments(["res", "zero"]), Str("aa")) == Num(0)
  {
    var inner := Obj(map["zero" := Num(0)]);
    assert Get(ZeroTree(), "res") == inner;
    assert Walk(inner, ["zero"]) == Walk(Num(0), []);
    assert Walk(ZeroTree(), ["res", "zero"]) == Walk(inner, ["zero"]);
  }
}
