/**
 * `deepMergeKey` and `deepMerge` (utils.ts:30-82): merge any number of
 * sources into a target object, key by key, recursing where both sides are
 * objects and resolving an array on the target side by one policy for the
 * whole call (`replace`: the source value wins; otherwise the two are
 * concatenated).
 *
 * The functions below specify the merge on values; the methods are the
 * step-by-step algorithm of the source (a loop over the keys of one source,
 * a loop over the sources) and are proved to compute the functions.
 */
module DeepMerge {
  import opened JsValue

  /** The key the merge never writes, against prototype pollution */
  const ProtoKey: string := "__proto__"

  /** `v != null && typeof v === 'object'`: a value whose keys are merged */
  predicate IsMergeSource(v: Value)
  {
    v.Arr? || v.Obj?
  }

  /** `Object.keys(v)` without "__proto__" (utils.ts:40-44) */
  function SourceKeys(v: Value): (ks: set<string>)
    ensures ProtoKey !in ks
  {
    match v
    case Obj(f) => f.Keys - {ProtoKey}
    case Arr(e) =>
      assert forall i :: 0 <= i < |e| ==> NatToString(i)[0] != ProtoKey[0];
      ArrayKeys(|e|)
    case _ => {}
  }

  /** The values `[...v]` can spread without throwing */
  predicate Spreadable(v: Value)
  {
    v.Arr? || v.Str?
  }

  /** The elements `[...v]` yields: those of an array, the characters of a string */
  function Spread(v: Value): seq<Value>
    requires Spreadable(v)
  {
    match v
    case Arr(e) => e
    case Str(s) => seq(|s|, i requires 0 <= i < |s| => Str([s[i]]))
  }

  // ---------------------------------------------------------------------
  // When the source code does not throw

  /**
   * Storing `from` over `to` at one key does not throw: the only statement
   * that can is `[...toValue, ...fromValue]` (utils.ts:51), for a source value
   * that is not iterable.
   */
  predicate EntryDefined(to: Value, from: Value, replace: bool)
    decreases from, 1
  {
    if to.Arr? then replace || Spreadable(from)
    else if from.Fn? then true
    else if IsMergeSource(from) && IsMergeSource(to) then FieldsDefined(to.fields, from, replace)
    else true
  }

  /** Merging the keys of `src` into an object with properties `t` does not throw */
  predicate FieldsDefined(t: map<string, Value>, src: Value, replace: bool)
    decreases src, 0
  {
    replace ||
    match src
    case Obj(f) => forall k :: k in f && k != ProtoKey ==> EntryDefined(Field(t, k), f[k], replace)
    case Arr(e) => forall i :: 0 <= i < |e| ==> EntryDefined(Field(t, NatToString(i)), e[i], replace)
    case _ => true
  }

  // ---------------------------------------------------------------------
  // The merge, as functions on values

  /**
   * The value stored at a key whose old value is `to` when the source holds
   * `from` there (utils.ts:46-63): an array target is replaced or
   * concatenated; a function overwrites; two objects merge recursively;
   * anything else is copied, and a copy of a value is the value itself.
   */
  function Merged(to: Value, from: Value, replace: bool): Value
    requires EntryDefined(to, from, replace)
    decreases from, 1
  {
    if to.Arr? then (if replace then from else Arr(to.elems + Spread(from)))
    else if from.Fn? then from
    else if IsMergeSource(from) && IsMergeSource(to) then Obj(MergedFields(to.fields, from, replace))
    else from
  }

  /** The properties of the target after the inner `merge(target, src)` (utils.ts:39-66) */
  function MergedFields(t: map<string, Value>, src: Value, replace: bool): (r: map<string, Value>)
    requires FieldsDefined(t, src, replace)
    decreases src, 0
    ensures r.Keys == t.Keys + SourceKeys(src)
    ensures forall k :: k in t && k !in SourceKeys(src) ==> r[k] == t[k]
  {
    match src
    case Obj(f) =>
      map k | k in t.Keys + (f.Keys - {ProtoKey}) ::
        if k in f && k != ProtoKey then Merged(Field(t, k), f[k], replace) else t[k]
    case Arr(e) =>
      ArrayKeysAreIndices(|e|);
      map k | k in t.Keys + ArrayKeys(|e|) ::
        if k in ArrayKeys(|e|) then Merged(Field(t, k), e[DigitsValue(k)], replace) else t[k]
    case _ => t
  }

  /** Each key that `src` supplies holds the merged entry (utils.ts:45-64) */
  lemma MergedFieldsAt(t: map<string, Value>, src: Value, replace: bool, k: string)
    requires FieldsDefined(t, src, replace)
    requires k in SourceKeys(src)
    ensures EntryDefined(Field(t, k), Get(src, k), replace)
    ensures MergedFields(t, src, replace)[k] == Merged(Field(t, k), Get(src, k), replace)
  {
    if src.Arr? {
      ArrayKeysAreIndices(|src.elems|);
    }
  }

  // ---------------------------------------------------------------------
  // Several sources, left to right (utils.ts:68-70)

  /** One source applied: `merge(target, v)` for an object source, nothing otherwise */
  function Step(t: map<string, Value>, v: Value, replace: bool): map<string, Value>
    requires IsMergeSource(v) ==> FieldsDefined(t, v, replace)
  {
    if IsMergeSource(v) then MergedFields(t, v, replace) else t
  }

  /** No source in `objects`, applied in order to properties `t`, throws */
  predicate SourcesDefined(t: map<string, Value>, replace: bool, objects: seq<Value>)
    decreases |objects|
  {
    objects == [] ||
    ((IsMergeSource(objects[0]) ==> FieldsDefined(t, objects[0], replace)) &&
     SourcesDefined(Step(t, objects[0], replace), replace, objects[1..]))
  }

  /** Every key some source supplies */
  function AllSourceKeys(objects: seq<Value>): set<string>
  {
    if objects == [] then {} else SourceKeys(objects[0]) + AllSourceKeys(objects[1..])
  }

  /** The target's properties after every source has been merged into it, in argument order */
  function MergedSources(t: map<string, Value>, replace: bool, objects: seq<Value>): (r: map<string, Value>)
    requires SourcesDefined(t, replace, objects)
    decreases |objects|
    ensures r.Keys == t.Keys + AllSourceKeys(objects)
    ensures forall k :: k in t && k !in AllSourceKeys(objects) ==> r[k] == t[k]
  {
    if objects == [] then t else MergedSources(Step(t, objects[0], replace), replace, objects[1..])
  }

  /**
   * `deepMergeKey(original, replace, ...objects)` does not throw: besides the
   * spread of utils.ts:51, merging a source that has keys into `null` throws,
   * since `typeof null === 'object'` passes the guard of utils.ts:35.
   */
  predicate MergeKeyDefined(original: Value, replace: bool, objects: seq<Value>)
  {
    match original
    case Obj(f) => SourcesDefined(f, replace, objects)
    case Null => AllSourceKeys(objects) == {}
    case _ => true
  }

  /**
   * The value `deepMergeKey(original, replace, ...objects)` leaves in
   * `original` and returns (utils.ts:30-73): an object gains the merged
   * properties, every other value (arrays included) is returned unchanged.
   */
  function MergedKey(original: Value, replace: bool, objects: seq<Value>): (r: Value)
    requires MergeKeyDefined(original, replace, objects)
    ensures !original.Obj? ==> r == original
    ensures original.Obj? ==> r.Obj? && r.fields.Keys == original.fields.Keys + AllSourceKeys(objects)
    ensures original.Obj? ==> forall k :: k in original.fields && k !in AllSourceKeys(objects) ==>
      r.fields[k] == original.fields[k]
  {
    if original.Obj? then Obj(MergedSources(original.fields, replace, objects)) else original
  }

  // ---------------------------------------------------------------------
  // The algorithm

  /** The body of the `forEach` for one key (utils.ts:46-63) */
  method MergeEntry(to: Value, from: Value, replace: bool) returns (r: Value)
    requires EntryDefined(to, from, replace)
    ensures r == Merged(to, from, replace)
    decreases from, 2
  {
    if to.Arr? {
      r := if replace then from else Arr(to.elems + Spread(from));
    } else if from.Fn? {
      r := from;
    } else if IsMergeSource(from) && IsMergeSource(to) {
      var fields := MergeInto(to.fields, from, replace);
      r := Obj(fields);
    } else {
      // deepCopy: a value has no identity, so its copy is itself
      r := from;
    }
  }

  /**
   * The inner `merge(target, obj)` (utils.ts:39-66): every key of the source
   * but "__proto__" is visited once and the target is updated at that key.
   */
  method MergeInto(target: map<string, Value>, src: Value, replace: bool) returns (r: map<string, Value>)
    requires IsMergeSource(src) && FieldsDefined(target, src, replace)
    ensures r == MergedFields(target, src, replace)
    decreases src, 1
  {
    if src.Obj? {
      r := MergeObjectKeys(target, src, replace);
    } else {
      r := MergeArrayKeys(target, src, replace);
    }
  }

  /** `merge` for a plain-object source: its keys in an arbitrary order, since no key's result depends on another's */
  method MergeObjectKeys(target: map<string, Value>, src: Value, replace: bool) returns (r: map<string, Value>)
    requires src.Obj? && FieldsDefined(target, src, replace)
    ensures r == MergedFields(target, src, replace)
    decreases src, 0
  {
    var f := src.fields;
    var keys := f.Keys - {ProtoKey};
    var pending := keys;
    r := target;
    while pending != {}
      invariant pending <= keys
      invariant r.Keys == target.Keys + (keys - pending)
      invariant forall k :: k in r && k !in keys - pending ==> r[k] == target[k]
      invariant forall k :: k in keys - pending ==> r[k] == Merged(Field(target, k), f[k], replace)
      decreases pending
    {
      var k :| k in pending;
      assert Field(r, k) == Field(target, k);
      var v := MergeEntry(Field(r, k), f[k], replace);
      r := r[k := v];
      pending := pending - {k};
    }
  }

  /** `merge` for an array source: `Object.keys` lists its indices "0", "1", ... in order */
  method MergeArrayKeys(target: map<string, Value>, src: Value, replace: bool) returns (r: map<string, Value>)
    requires src.Arr? && FieldsDefined(target, src, replace)
    ensures r == MergedFields(target, src, replace)
    decreases src, 0
  {
    var e := src.elems;
    r := target;
    for i := 0 to |e|
      invariant r == IndicesMerged(target, e, replace, i)
    {
      var k := NatToString(i);
      NotYetVisited(target, e, replace, i);
      EntryOfIndex(target, e, replace, i);
      var v := MergeEntry(Field(r, k), e[i], replace);
      r := r[k := v];
    }
    ArrayMergeComplete(target, e, replace);
  }

  /** The properties after the indices below `i` of an array source have been visited, in order */
  ghost function IndicesMerged(target: map<string, Value>, e: seq<Value>, replace: bool, i: nat): map<string, Value>
    requires i <= |e| && FieldsDefined(target, Arr(e), replace)
  {
    if i == 0 then target
    else
      EntryOfIndex(target, e, replace, i - 1);
      IndicesMerged(target, e, replace, i - 1)[NatToString(i - 1) :=
        Merged(Field(target, NatToString(i - 1)), e[i - 1], replace)]
  }

  /** No index of a source array makes its entry throw */
  lemma EntryOfIndex(target: map<string, Value>, e: seq<Value>, replace: bool, i: nat)
    requires i < |e| && FieldsDefined(target, Arr(e), replace)
    ensures EntryDefined(Field(target, NatToString(i)), e[i], replace)
  {
    if replace {
      ReplaceDefined(Field(target, NatToString(i)), e[i]);
    }
  }

  /** With `replace` set nothing throws: arrays are replaced, never spread */
  lemma ReplaceDefined(to: Value, from: Value)
    ensures EntryDefined(to, from, true)
  {
  }

  /** The visit of index `i` reads the key's original value: no earlier index has the same key */
  lemma NotYetVisited(target: map<string, Value>, e: seq<Value>, replace: bool, i: nat)
    requires i <= |e| && FieldsDefined(target, Arr(e), replace)
    ensures Field(IndicesMerged(target, e, replace, i), NatToString(i)) == Field(target, NatToString(i))
  {
    forall j | 0 <= j < i ensures NatToString(j) != NatToString(i) {
      NatToStringInjective(i, j);
    }
    IndicesUntouched(target, e, replace, i, NatToString(i));
  }

  /** A key that is no visited index keeps its original value */
  lemma {:induction false} IndicesUntouched(target: map<string, Value>, e: seq<Value>, replace: bool, i: nat, k: string)
    requires i <= |e| && FieldsDefined(target, Arr(e), replace)
    requires forall j :: 0 <= j < i ==> NatToString(j) != k
    ensures k in IndicesMerged(target, e, replace, i) <==> k in target
    ensures Field(IndicesMerged(target, e, replace, i), k) == Field(target, k)
  {
    if i > 0 {
      IndicesUntouched(target, e, replace, i - 1, k);
    }
  }

  /** Each visited index holds its merged entry */
  lemma {:induction false} IndexMerged(target: map<string, Value>, e: seq<Value>, replace: bool, i: nat, j: nat)
    requires j < i <= |e| && FieldsDefined(target, Arr(e), replace)
    ensures EntryDefined(Field(target, NatToString(j)), e[j], replace)
    ensures NatToString(j) in IndicesMerged(target, e, replace, i)
    ensures IndicesMerged(target, e, replace, i)[NatToString(j)] ==
      Merged(Field(target, NatToString(j)), e[j], replace)
  {
    EntryOfIndex(target, e, replace, j);
    if j < i - 1 {
      NatToStringInjective(i - 1, j);
      IndexMerged(target, e, replace, i - 1, j);
    }
  }

  /** The visited keys are the target's keys and the indices below `i` */
  lemma {:induction false} IndicesKeys(target: map<string, Value>, e: seq<Value>, replace: bool, i: nat)
    requires i <= |e| && FieldsDefined(target, Arr(e), replace)
    ensures IndicesMerged(target, e, replace, i).Keys == target.Keys + ArrayKeys(i)
  {
    if i > 0 {
      IndicesKeys(target, e, replace, i - 1);
      ArrayKeysGrow(i - 1);
    }
  }

  /** Once every index has been visited, the target has the merged properties */
  lemma ArrayMergeComplete(target: map<string, Value>, e: seq<Value>, replace: bool)
    requires FieldsDefined(target, Arr(e), replace)
    ensures IndicesMerged(target, e, replace, |e|) == MergedFields(target, Arr(e), replace)
  {
    var r := IndicesMerged(target, e, replace, |e|);
    var m := MergedFields(target, Arr(e), replace);
    IndicesKeys(target, e, replace, |e|);
    ArrayKeysAreIndices(|e|);
    forall k | k in r ensures r[k] == m[k] {
      if k in ArrayKeys(|e|) {
        IndexMerged(target, e, replace, |e|, DigitsValue(k));
      } else {
        IndicesUntouched(target, e, replace, |e|, k);
      }
    }
  }

  /** `deepMergeKey(original, replace, ...objects)` (utils.ts:30-73) */
  method DeepMergeKey(original: Value, replace: bool, objects: seq<Value>) returns (r: Value)
    requires MergeKeyDefined(original, replace, objects)
    ensures r == MergedKey(original, replace, objects)
  {
    if original.Arr? || !IsObject(original) {
      return original;
    }
    if original.Null? {
      // every object source has no key, so each `merge(null, v)` does nothing
      return original;
    }
    var fields := original.fields;
    for i := 0 to |objects|
      invariant SourcesDefined(fields, replace, objects[i..])
      invariant MergedSources(fields, replace, objects[i..]) == MergedSources(original.fields, replace, objects)
    {
      var v := objects[i];
      assert objects[i..][1..] == objects[i + 1..];
      if IsMergeSource(v) {
        fields := MergeInto(fields, v, replace);
      }
    }
    r := Obj(fields);
  }

  /** `deepMerge(original, ...objects)`: arrays concatenate (utils.ts:80-82) */
  method DeepMerge(original: Value, objects: seq<Value>) returns (r: Value)
    requires MergeKeyDefined(original, false, objects)
    ensures r == MergedKey(original, false, objects)
  {
    r := DeepMergeKey(original, false, objects);
  }
}
