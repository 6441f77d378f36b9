/**
 * What `deepMergeKey` and `deepMerge` promise, stated over the merge
 * functions of module DeepMerge (which the merge methods are proved to
 * compute).
 */
module DeepMergeProperties {
  import opened JsValue
  import opened DeepMerge

  /** Merging no source leaves any target as it was */
  lemma NoSourcesNoChange(original: Value, replace: bool)
    ensures MergeKeyDefined(original, replace, [])
    ensures MergedKey(original, replace, []) == original
  {
  }

  /** `objects.filter((v) => v != null && isObject(v))` (utils.ts:68-69) */
  function ObjectSources(objects: seq<Value>): (r: seq<Value>)
    ensures |r| <= |objects|
    ensures forall v :: v in r <==> v in objects && IsMergeSource(v)
  {
    if objects == [] then []
    else if IsMergeSource(objects[0]) then [objects[0]] + ObjectSources(objects[1..])
    else ObjectSources(objects[1..])
  }

  /**
   * The filter keeps the sources in their order: filtering a list is
   * filtering its two halves, and a single source is kept alone or dropped
   */
  lemma {:induction false} ObjectSourcesAppend(a: seq<Value>, b: seq<Value>)
    ensures ObjectSources(a + b) == ObjectSources(a) + ObjectSources(b)
    ensures forall v :: ObjectSources([v]) == if IsMergeSource(v) then [v] else []
    decreases |a|
  {
    forall v ensures ObjectSources([v]) == if IsMergeSource(v) then [v] else [] {
      assert [v][1..] == [];
    }
    if a == [] {
      assert a + b == b;
    } else {
      assert (a + b)[0] == a[0];
      assert (a + b)[1..] == a[1..] + b;
      ObjectSourcesAppend(a[1..], b);
    }
  }

  /**
   * Sources that are not objects (`null`, `undefined`, primitives, functions)
   * are skipped: merging the filtered list is the same as merging the whole.
   */
  lemma {:induction false} NonObjectSourcesSkipped(t: map<string, Value>, replace: bool, objects: seq<Value>)
    ensures AllSourceKeys(objects) == AllSourceKeys(ObjectSources(objects))
    ensures SourcesDefined(t, replace, objects) <==> SourcesDefined(t, replace, ObjectSources(objects))
    ensures SourcesDefined(t, replace, objects) ==>
      MergedSources(t, replace, objects) == MergedSources(t, replace, ObjectSources(objects))
    decreases |objects|
  {
    NonObjectSourcesSupplyNoKeys(objects);
    if objects != [] {
      var v := objects[0];
      var rest := objects[1..];
      if IsMergeSource(v) {
        assert ObjectSources(objects) == [v] + ObjectSources(rest);
        assert ([v] + ObjectSources(rest))[1..] == ObjectSources(rest);
        if FieldsDefined(t, v, replace) {
          NonObjectSourcesSkipped(Step(t, v, replace), replace, rest);
        }
      } else {
        assert ObjectSources(objects) == ObjectSources(rest);
        NonObjectSourcesSkipped(t, replace, rest);
      }
    }
  }

  lemma {:induction false} NonObjectSourcesSupplyNoKeys(objects: seq<Value>)
    ensures AllSourceKeys(objects) == AllSourceKeys(ObjectSources(objects))
    decreases |objects|
  {
    if objects != [] {
      var v := objects[0];
      NonObjectSourcesSupplyNoKeys(objects[1..]);
      if IsMergeSource(v) {
        assert ([v] + ObjectSources(objects[1..]))[1..] == ObjectSources(objects[1..]);
      }
    }
  }

  /** In particular, merging only `null`, `undefined` and primitives changes nothing */
  lemma OnlyNonObjectSources(original: Value, replace: bool, objects: seq<Value>)
    requires forall i :: 0 <= i < |objects| ==> !IsMergeSource(objects[i])
    ensures MergeKeyDefined(original, replace, objects)
    ensures MergedKey(original, replace, objects) == original
  {
    NothingKept(objects);
    if original.Obj? {
      NonObjectSourcesSkipped(original.fields, replace, objects);
    } else {
      NonObjectSourcesSkipped(map[], replace, objects);
    }
  }

  /** The filter keeps nothing of a list without objects */
  lemma {:induction false} NothingKept(objects: seq<Value>)
    requires forall i :: 0 <= i < |objects| ==> !IsMergeSource(objects[i])
    ensures ObjectSources(objects) == []
    decreases |objects|
  {
    if objects != [] {
      NothingKept(objects[1..]);
    }
  }

  /** "__proto__" is never written: the target keeps it, or keeps not having it (utils.ts:43) */
  lemma ProtoKeyNeverWritten(original: Value, replace: bool, objects: seq<Value>)
    requires original.Obj? && MergeKeyDefined(original, replace, objects)
    ensures ProtoKey in MergedKey(original, replace, objects).fields <==> ProtoKey in original.fields
    ensures ProtoKey in original.fields ==>
      MergedKey(original, replace, objects).fields[ProtoKey] == original.fields[ProtoKey]
  {
    ProtoNotSupplied(objects);
  }

  lemma {:induction false} ProtoNotSupplied(objects: seq<Value>)
    ensures ProtoKey !in AllSourceKeys(objects)
  {
    if objects != [] {
      ProtoNotSupplied(objects[1..]);
    }
  }

  /** One source: merging `[v]` is one application of the inner `merge` */
  lemma SingleSource(t: map<string, Value>, replace: bool, v: Value)
    ensures AllSourceKeys([v]) == SourceKeys(v)
    ensures SourcesDefined(t, replace, [v]) <==> (IsMergeSource(v) ==> FieldsDefined(t, v, replace))
    ensures SourcesDefined(t, replace, [v]) ==> MergedSources(t, replace, [v]) == Step(t, v, replace)
  {
    assert [v][1..] == [];
  }

  /**
   * The four ways a key supplied by a single source is resolved
   * (utils.ts:46-63), observed on the target after `deepMergeKey`.
   */
  lemma MergeKeyDispatch(original: Value, replace: bool, src: Value, k: string)
    requires original.Obj? && IsMergeSource(src) && k in SourceKeys(src)
    requires MergeKeyDefined(original, replace, [src])
    ensures var to := Field(original.fields, k);
      var from := Get(src, k);
      var r := MergedKey(original, replace, [src]);
      && k in r.fields
      // an array on the target side: replaced wholesale, whatever the source holds
      && (to.Arr? && replace ==> r.fields[k] == from)
      // ... or followed by the source's elements
      && (to.Arr? && !replace ==> Spreadable(from) && r.fields[k] == Arr(to.elems + Spread(from)))
      // a function overwrites
      && (!to.Arr? && from.Fn? ==> r.fields[k] == from)
      // two objects: keys of the nested target kept, keys of the nested source merged in
      && (to.Obj? && IsMergeSource(from) ==>
            && r.fields[k].Obj?
            && r.fields[k].fields.Keys == to.fields.Keys + SourceKeys(from)
            && (forall j :: j in to.fields && j !in SourceKeys(from) ==> r.fields[k].fields[j] == to.fields[j]))
      // anything else is copied
      && (!to.Arr? && !from.Fn? && !(to.Obj? && IsMergeSource(from)) ==> r.fields[k] == from)
  {
    SingleSource(original.fields, replace, src);
    MergedFieldsAt(original.fields, src, replace, k);
  }

  /** Sources apply left to right: the last one is merged into the result of the others */
  lemma {:induction false} MergedSourcesSnoc(t: map<string, Value>, replace: bool, objects: seq<Value>, v: Value)
    requires SourcesDefined(t, replace, objects + [v])
    ensures SourcesDefined(t, replace, objects)
    ensures IsMergeSource(v) ==> FieldsDefined(MergedSources(t, replace, objects), v, replace)
    ensures MergedSources(t, replace, objects + [v]) == Step(MergedSources(t, replace, objects), v, replace)
    decreases |objects|
  {
    if objects == [] {
      assert [] + [v] == [v];
      SingleSource(t, replace, v);
    } else {
      assert (objects + [v])[1..] == objects[1..] + [v];
      MergedSourcesSnoc(Step(t, objects[0], replace), replace, objects[1..], v);
    }
  }

  /** Merging `a + b` is merging `a`, then merging `b` into the result */
  lemma {:induction false} MergedSourcesAppend(t: map<string, Value>, replace: bool, a: seq<Value>, b: seq<Value>)
    ensures SourcesDefined(t, replace, a + b) <==>
      SourcesDefined(t, replace, a) && SourcesDefined(MergedSources(t, replace, a), replace, b)
    ensures SourcesDefined(t, replace, a + b) ==>
      MergedSources(t, replace, a + b) == MergedSources(MergedSources(t, replace, a), replace, b)
    decreases |a|
  {
    if a == [] {
      assert a + b == b;
    } else {
      assert (a + b)[0] == a[0];
      assert (a + b)[1..] == a[1..] + b;
      if IsMergeSource(a[0]) ==> FieldsDefined(t, a[0], replace) {
        MergedSourcesAppend(Step(t, a[0], replace), replace, a[1..], b);
      }
    }
  }

  /**
   * For a key where the last source to supply it holds a primitive, `null`,
   * `undefined` or a function, that source wins, unless the value before it
   * was an array and arrays are concatenated; later sources that do not
   * supply the key leave it alone.
   */
  lemma LastSourceWins(t: map<string, Value>, replace: bool, objects: seq<Value>, v: Value, rest: seq<Value>, k: string)
    requires SourcesDefined(t, replace, objects + [v] + rest)
    requires SourcesDefined(t, replace, objects)
    requires IsMergeSource(v) && k in SourceKeys(v) && !IsMergeSource(Get(v, k)) && k !in AllSourceKeys(rest)
    requires replace || !Field(MergedSources(t, replace, objects), k).Arr?
    ensures k in MergedSources(t, replace, objects + [v] + rest)
    ensures MergedSources(t, replace, objects + [v] + rest)[k] == Get(v, k)
  {
    MergedSourcesAppend(t, replace, objects + [v], rest);
    MergedSourcesSnoc(t, replace, objects, v);
    MergedFieldsAt(MergedSources(t, replace, objects), v, replace, k);
  }

  // ---------------------------------------------------------------------
  // Idempotence of the replacing merge

  /** Merging a value into itself with arrays replaced gives it back */
  lemma {:induction false} SelfMergeEntry(v: Value)
    ensures Merged(v, v, true) == v
    decreases v, 1
  {
    if !v.Arr? && !v.Fn? && IsMergeSource(v) {
      SelfMergeFields(v.fields);
    }
  }

  lemma {:induction false} SelfMergeFields(f: map<string, Value>)
    ensures MergedFields(f, Obj(f), true) == f
    decreases Obj(f), 0
  {
    var m := MergedFields(f, Obj(f), true);
    forall k | k in f ensures m[k] == f[k] {
      if k != ProtoKey {
        MergedFieldsAt(f, Obj(f), true, k);
        SelfMergeEntry(f[k]);
      }
    }
  }

  /** With `replace`, merging the same source a second time changes nothing more */
  lemma {:induction false} ReplaceIdempotentEntry(to: Value, from: Value)
    ensures Merged(Merged(to, from, true), from, true) == Merged(to, from, true)
    decreases from, 2
  {
    if to.Arr? {
      SelfMergeEntry(from);
    } else if from.Fn? {
    } else if IsMergeSource(from) && IsMergeSource(to) {
      ReplaceIdempotentFields(to.fields, from);
    } else {
      SelfMergeEntry(from);
    }
  }

  lemma {:induction false} ReplaceIdempotentFields(t: map<string, Value>, src: Value)
    requires IsMergeSource(src)
    ensures MergedFields(MergedFields(t, src, true), src, true) == MergedFields(t, src, true)
    decreases src, 1
  {
    var m1 := MergedFields(t, src, true);
    var m2 := MergedFields(m1, src, true);
    forall k | k in SourceKeys(src) ensures m2[k] == m1[k] {
      ReplaceIdempotentAt(t, src, k);
    }
  }

  lemma {:induction false} ReplaceIdempotentAt(t: map<string, Value>, src: Value, k: string)
    requires IsMergeSource(src) && k in SourceKeys(src)
    ensures MergedFields(MergedFields(t, src, true), src, true)[k] == MergedFields(t, src, true)[k]
    decreases src, 0
  {
    var m1 := MergedFields(t, src, true);
    MergedFieldsAt(t, src, true, k);
    MergedFieldsAt(m1, src, true, k);
    match src {
      case Obj(f) =>
        ReplaceIdempotentEntry(Field(t, k), f[k]);
      case Arr(e) =>
        ArrayKeysAreIndices(|e|);
        ReplaceIdempotentEntry(Field(t, k), e[DigitsValue(k)]);
    }
  }

  /** `deepMergeKey(deepMergeKey(T, true, S), true, S)` equals `deepMergeKey(T, true, S)` */
  lemma ReplaceIdempotent(original: Value, src: Value)
    requires MergeKeyDefined(original, true, [src])
    ensures MergeKeyDefined(MergedKey(original, true, [src]), true, [src])
    ensures MergedKey(MergedKey(original, true, [src]), true, [src]) == MergedKey(original, true, [src])
  {
    if original.Obj? {
      var f := original.fields;
      SingleSource(f, true, src);
      SingleSource(MergedSources(f, true, [src]), true, src);
      if IsMergeSource(src) {
        ReplaceIdempotentFields(f, src);
      }
    }
  }

  // ---------------------------------------------------------------------
  // The behaviour utils.spec.ts:66-142 expects

  /** Concatenation: `{arr: [1, 2]}` with `{arr: [3]}` gives `[1, 2, 3]`; replacing gives `[3]` */
  lemma ArrayPolicyExample()
    ensures var original := Obj(map["arr" := Arr([Num(1), Num(2)])]);
      var src := Obj(map["arr" := Arr([Num(3)])]);
      && MergeKeyDefined(original, false, [src])
      && MergedKey(original, false, [src]) == Obj(map["arr" := Arr([Num(1), Num(2), Num(3)])])
      && MergeKeyDefined(original, true, [src])
      && MergedKey(original, true, [src]) == Obj(map["arr" := Arr([Num(3)])])
  {
    var f := map["arr" := Arr([Num(1), Num(2)])];
    var src := Obj(map["arr" := Arr([Num(3)])]);
    assert SourceKeys(src) == {"arr"};
    SingleSource(f, false, src);
    SingleSource(f, true, src);
    MergedFieldsAt(f, src, false, "arr");
    MergedFieldsAt(f, src, true, "arr");
    assert [Num(1), Num(2)] + [Num(3)] == [Num(1), Num(2), Num(3)];
    assert MergedFields(f, src, false) == map["arr" := Arr([Num(1), Num(2), Num(3)])];
    assert MergedFields(f, src, true) == map["arr" := Arr([Num(3)])];
  }

  /** Concatenation is not idempotent: merging `{arr: [3]}` twice gives `[1, 2, 3, 3]` */
  lemma ConcatTwiceExample()
    ensures var original := Obj(map["arr" := Arr([Num(1), Num(2)])]);
      var src := Obj(map["arr" := Arr([Num(3)])]);
      && MergeKeyDefined(original, false, [src, src])
      && MergedKey(original, false, [src, src]) == Obj(map["arr" := Arr([Num(1), Num(2), Num(3), Num(3)])])
  {
    var f := map["arr" := Arr([Num(1), Num(2)])];
    var src := Obj(map["arr" := Arr([Num(3)])]);
    var once := map["arr" := Arr([Num(1), Num(2), Num(3)])];
    assert SourceKeys(src) == {"arr"};
    MergedFieldsAt(f, src, false, "arr");
    assert [Num(1), Num(2)] + [Num(3)] == [Num(1), Num(2), Num(3)];
    assert MergedFields(f, src, false) == once;
    MergedFieldsAt(once, src, false, "arr");
    assert [Num(1), Num(2), Num(3)] + [Num(3)] == [Num(1), Num(2), Num(3), Num(3)];
    assert MergedFields(once, src, false) == map["arr" := Arr([Num(1), Num(2), Num(3), Num(3)])];
    assert [src, src][1..] == [src];
    SingleSource(once, false, src);
  }

  /** The target of utils.spec.ts:68-92 */
  function WorkingTarget(fn1: Value, time: Value): map<string, Value>
  {
    map["a" := Num(1), "b" := Obj(map["c" := Str("c")]), "fn" := fn1, "arr2" := Arr([]),
        "str" := Str("str"), "time" := time, "bool" := Bool(true)]
  }

  /** The source of utils.spec.ts:82 */
  function WorkingSource(fn2: Value): Value
  {
    Obj(map["b" := Obj(map["d" := Str("d")]), "arr" := Arr([Num(2)]), "fn" := fn2])
  }

  /**
   * Nested objects merge, a function overwrites, a new array is copied, and
   * keys the source does not mention keep their values (utils.spec.ts:68-92).
   */
  lemma MergeWorkingExample(fn1: Value, fn2: Value, time: Value)
    requires fn1.Fn? && fn2.Fn? && time.Obj?
    ensures MergeKeyDefined(Obj(WorkingTarget(fn1, time)), false, [WorkingSource(fn2)])
    ensures var r := MergedKey(Obj(WorkingTarget(fn1, time)), false, [WorkingSource(fn2)]).fields;
      && r.Keys == WorkingTarget(fn1, time).Keys + {"arr"}
      && r["b"] == Obj(map["c" := Str("c"), "d" := Str("d")])
      && r["fn"] == fn2
      && r["arr"] == Arr([Num(2)])
      && (forall k :: k in WorkingTarget(fn1, time) && k !in {"b", "fn"} ==> r[k] == WorkingTarget(fn1, time)[k])
  {
    var f := WorkingTarget(fn1, time);
    var src := WorkingSource(fn2);
    WorkingFields(fn1, fn2, time);
    SingleSource(f, false, src);
  }

  lemma WorkingFields(fn1: Value, fn2: Value, time: Value)
    requires fn1.Fn? && fn2.Fn? && time.Obj?
    ensures FieldsDefined(WorkingTarget(fn1, time), WorkingSource(fn2), false)
    ensures SourceKeys(WorkingSource(fn2)) == {"b", "arr", "fn"}
    ensures var r := MergedFields(WorkingTarget(fn1, time), WorkingSource(fn2), false);
      && r["b"] == Obj(map["c" := Str("c"), "d" := Str("d")])
      && r["fn"] == fn2
      && r["arr"] == Arr([Num(2)])
  {
    WorkingDefined(fn1, fn2, time);
    WorkingSourceKeys(fn2);
    WorkingNested(fn1, fn2, time);
    WorkingFunction(fn1, fn2, time);
    WorkingArray(fn1, fn2, time);
  }

  lemma WorkingSourceKeys(fn2: Value)
    ensures SourceKeys(WorkingSource(fn2)) == {"b", "arr", "fn"}
  {
    assert SourceKeys(WorkingSource(fn2)) == {"b", "arr", "fn"};
  }

  /** The nested object `b` is merged key by key */
  lemma WorkingNested(fn1: Value, fn2: Value, time: Value)
    requires fn1.Fn? && fn2.Fn? && time.Obj?
    requires FieldsDefined(WorkingTarget(fn1, time), WorkingSource(fn2), false)
    ensures MergedFields(WorkingTarget(fn1, time), WorkingSource(fn2), false)["b"] ==
      Obj(map["c" := Str("c"), "d" := Str("d")])
  {
    WorkingSourceKeys(fn2);
    MergedFieldsAt(WorkingTarget(fn1, time), WorkingSource(fn2), false, "b");
    assert Field(WorkingTarget(fn1, time), "b") == Obj(map["c" := Str("c")]);
    NestedExample();
  }

  /** The function `fn` overwrites the target's function */
  lemma WorkingFunction(fn1: Value, fn2: Value, time: Value)
    requires fn1.Fn? && fn2.Fn? && time.Obj?
    requires FieldsDefined(WorkingTarget(fn1, time), WorkingSource(fn2), false)
    ensures MergedFields(WorkingTarget(fn1, time), WorkingSource(fn2), false)["fn"] == fn2
  {
    WorkingSourceKeys(fn2);
    MergedFieldsAt(WorkingTarget(fn1, time), WorkingSource(fn2), false, "fn");
    assert Get(WorkingSource(fn2), "fn") == fn2;
  }

  /** The array `arr`, which the target lacks, is copied from the source */
  lemma WorkingArray(fn1: Value, fn2: Value, time: Value)
    requires fn1.Fn? && fn2.Fn? && time.Obj?
    requires FieldsDefined(WorkingTarget(fn1, time), WorkingSource(fn2), false)
    ensures MergedFields(WorkingTarget(fn1, time), WorkingSource(fn2), false)["arr"] == Arr([Num(2)])
  {
    WorkingSourceKeys(fn2);
    MergedFieldsAt(WorkingTarget(fn1, time), WorkingSource(fn2), false, "arr");
    assert "arr" !in WorkingTarget(fn1, time);
  }

  lemma WorkingDefined(fn1: Value, fn2: Value, time: Value)
    requires fn1.Fn? && fn2.Fn? && time.Obj?
    ensures FieldsDefined(WorkingTarget(fn1, time), WorkingSource(fn2), false)
  {
    NestedExample();
  }

  /** `{c: 'c'}` merged with `{d: 'd'}` keeps `c` and adds `d` */
  lemma NestedExample()
    ensures FieldsDefined(map["c" := Str("c")], Obj(map["d" := Str("d")]), false)
    ensures MergedFields(map["c" := Str("c")], Obj(map["d" := Str("d")]), false) ==
      map["c" := Str("c"), "d" := Str("d")]
  {
    assert SourceKeys(Obj(map["d" := Str("d")])) == {"d"};
    MergedFieldsAt(map["c" := Str("c")], Obj(map["d" := Str("d")]), false, "d");
  }

  /** An array target is returned as it is (utils.spec.ts:93-100) */
  lemma ArrayTargetExample()
    ensures MergeKeyDefined(Arr([]), false, [Arr([Num(1), Num(2)]), Arr([Num(3), Num(4)])])
    ensures MergedKey(Arr([]), false, [Arr([Num(1), Num(2)]), Arr([Num(3), Num(4)])]) == Arr([])
  {
  }

  /** Several sources all contribute (utils.spec.ts:101-110) */
  lemma SeveralSourcesExample()
    ensures var original := Obj(map["a" := Num(1), "b" := Num(2)]);
      var objects := [Obj(map["c" := Num(3)]), Obj(map["d" := Num(4)])];
      && MergeKeyDefined(original, false, objects)
      && MergedKey(original, false, objects) == Obj(map["a" := Num(1), "b" := Num(2), "c" := Num(3), "d" := Num(4)])
  {
    var f1 := map["a" := Num(1), "b" := Num(2), "c" := Num(3)];
    var s1 := Obj(map["c" := Num(3)]);
    var s2 := Obj(map["d" := Num(4)]);
    AddOneKey(map["a" := Num(1), "b" := Num(2)], "c", Num(3));
    AddOneKey(f1, "d", Num(4));
    assert [s1, s2][1..] == [s2];
    SingleSource(f1, false, s2);
  }

  /** A source with one new primitive key adds exactly that key */
  lemma AddOneKey(t: map<string, Value>, k: string, v: Value)
    requires k !in t && k != ProtoKey && !IsMergeSource(v) && !v.Fn?
    ensures FieldsDefined(t, Obj(map[k := v]), false)
    ensures MergedFields(t, Obj(map[k := v]), false) == t[k := v]
  {
    assert SourceKeys(Obj(map[k := v])) == {k};
    MergedFieldsAt(t, Obj(map[k := v]), false, k);
  }

  /** `null` and `undefined` source values are stored as they are (utils.spec.ts:111-119) */
  lemma BlankValuesExample()
    ensures var original := Obj(map["a" := Null]);
      var src := Obj(map["a" := Null, "b" := Undefined]);
      && MergeKeyDefined(original, false, [src])
      && MergedKey(original, false, [src]) == Obj(map["a" := Null, "b" := Undefined])
  {
    var f := map["a" := Null];
    var src := Obj(map["a" := Null, "b" := Undefined]);
    assert SourceKeys(src) == {"a", "b"};
    SingleSource(f, false, src);
    MergedFieldsAt(f, src, false, "a");
    MergedFieldsAt(f, src, false, "b");
  }

  /** `null` and `undefined` sources add no key (utils.spec.ts:120-126) */
  lemma BlankSourcesExample()
    ensures MergeKeyDefined(Obj(map[]), false, [Null, Undefined])
    ensures MergedKey(Obj(map[]), false, [Null, Undefined]) == Obj(map[])
  {
    OnlyNonObjectSources(Obj(map[]), false, [Null, Undefined]);
  }
}
