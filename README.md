# form-render core utilities in Dafny

This project models the helpers of `packages/core/src/lib/utils.ts` in the
form-render library and proves properties of them:

- `deepMergeKey` and `deepMerge` merge any number of source objects into a
  target object, key by key. They recurse where both sides are objects, skip
  sources that are not objects, never write `__proto__`, and handle an array
  on the target side by one policy per call: replace it, or concatenate.
- `deepGet` looks a path up in a value and falls back to a default.
- `format` replaces every `${key}` of a template with a value of the data,
  found by a shallow property access or by `deepGet`.
- `formatMask` walks a mask character by character against an input, using
  a table of tokens (`0`, `9`, `#`, `U`, `L`, `*` and the caller's own).
- `isBlank` and `toBoolean` are small conversions.

The modules:

| file | module | what it holds |
|---|---|---|
| `wrappers.dfy` | `Wrappers` | `Option` |
| `js_value.dfy` | `JsValue` | the JavaScript values the helpers see, truthiness, `typeof ... === 'object'`, property access, `String(v)`, `split`/`join`, the decimal keys of array indices, `isBlank`, `toBoolean` |
| `deep_merge.dfy` | `DeepMerge` | the merge as functions on values (`Merged`, `MergedFields`, `MergedSources`, `MergedKey`) and the algorithm of the source as methods proved to compute them |
| `deep_merge_properties.dfy` | `DeepMergeProperties` | what the merge promises (skipped sources, the protected key, the array policy, last source wins, idempotence of replacing) and the library's own test cases |
| `deep_get.dfy` | `PathLookup` | `deepGet` as path casting, a walk and the default |
| `format.dfy` | `Interpolation` | the placeholder scan of `format` and its two lookup modes |
| `format_mask.dfy` | `Mask` | the token table, the specification `Masked` and the loop `FormatMask` proved to compute it |

Choices made by the model:

- Values are immutable. The source changes the target object in place and
  returns it. The model's methods (`DeepMerge.MergeEntry`,
  `DeepMerge.MergeObjectKeys`, `DeepMerge.MergeArrayKeys`,
  `DeepMerge.DeepMergeKey`) follow the source's loops and return the new
  properties. Each is proved equal to a function on values.
- `deepMergeKey` throws in two cases. One is `[...toValue, ...fromValue]`
  when the source value cannot be spread (utils.ts:51). The other is merging
  an object with keys into a `null` target, since `typeof null` is `'object'`
  and `target[key]` then throws. The predicates `EntryDefined`,
  `FieldsDefined`, `SourcesDefined` and `MergeKeyDefined` say when neither
  happens, and the merge functions and methods require them.
- `deepCopy` (lodash `cloneDeep`) is the identity, because a value has no
  identity to copy.
- An array source contributes the keys `Object.keys` gives for it: the
  decimal strings of its indices. These are proved distinct and read back as
  the index (`NatToStringRoundTrip`, `NatToStringInjective`,
  `ArrayKeysAreIndices`).
- A property missing on a plain target object reads `undefined`. An
  inherited `Object.prototype` member would read a function instead. Both
  take the copying branch of the merge, so the result is the same.
- lodash `get` is modelled in three steps: `castPath`, then the walk of
  `baseGet`, then replacing `undefined` by the default. A string path is
  split at `.` unless it has no `.` or is itself a property of the object,
  as lodash's `isKey` does for plain keys.
- The regular expression `/\${([^}]+)}/g` of `format` is modelled by
  `PlaceholderAt`. A placeholder is `${`, a non-empty key and the first `}`
  after it. Scanning resumes after that `}`.
- The patterns of the mask tokens are the datatype `Mask.Pattern` and
  their transforms are `Mask.Transform`. The built-in tokens use named
  constructors. A caller's own token carries any test and any function.

Behaviours of the code a caller may not expect, which the model follows:

- In deep mode, `format` writes `"null"` for a key whose value is a present
  `null`. lodash `get` returns `null` rather than the default, and
  `String(null)` is `"null"` (`Interpolation.ModesDifferOnFalsyValues`).
- In shallow mode, `format` writes `""` for any falsy value, `0` included,
  because of `obj[key] || ''`.
- Once the input of `formatMask` is used up, a token position still takes
  the empty string. The pattern of `*` is `/.*/`, which matches the empty
  string, so `*` still emits `*` (`Mask.ExhaustedInput`,
  `Mask.StarAfterInputExample`). The built-in default of `0` still emits `0`,
  and the other built-in tokens emit nothing.
- A character that a token's pattern rejects is still consumed from the
  input (`Mask.RejectedCharacterExample`).
- `deepMergeKey` can throw, as described above.

One comment of the source disagrees with its code, and the model follows the
code: the table of mask characters at utils.ts:144 calls `#` any character,
but its pattern at utils.ts:167 accepts only ASCII letters and digits, so any
other character at a `#` position is dropped (`Mask.HashAcceptsAlphanumerics`).

## Model

| member | source | states |
|---|---|---|
| `JsValue.IsBlank` | packages/core/src/lib/utils.ts:84-86 | definition of `isBlank` (`o == null`: `null` or `undefined`); see `BlankIsFalsy` |
| `JsValue.BlankIsFalsy` | packages/core/src/lib/utils.ts:84-86 | a value that `isBlank` accepts (`== null`) is falsy, and a non-null value with `typeof 'object'` is truthy |
| `JsValue.ToBoolean` | packages/core/src/lib/utils.ts:88-93 | definition of `toBoolean`: the default for a blank value, otherwise whether its string differs from `"false"`; see `ToBooleanOfPrimitive` and `ToBooleanExamples` |
| `JsValue.ToBooleanOfPrimitive` | packages/core/src/lib/utils.ts:88-93 | for a non-blank boolean, number, string or object, `toBoolean` gives a boolean, and that boolean is `false` exactly when the value is `false` or the string `"false"` |
| `JsValue.ToBooleanExamples` | packages/core/src/lib/utils.ts:88-93 | `null` and `undefined` give the default, even a `null` default; `0` and `""` give `true`; the array `["false"]` gives `false` through its string |
| `JsValue.NatToStringRoundTrip` | packages/core/src/lib/utils.ts:40 | the decimal key of an array index reads back as that index |
| `JsValue.NatToStringInjective` | packages/core/src/lib/utils.ts:40 | two indices with the same decimal key are the same index |
| `JsValue.ArrayKeysAreIndices` | packages/core/src/lib/utils.ts:40 | the keys of an array of length `n` are exactly the canonical decimal strings of the numbers below `n` |
| `JsValue.Get` | packages/core/src/lib/utils.ts:47 | reading a property a value does not have gives `undefined` |
| `JsValue.SplitPartsOmitSeparator` | packages/core/src/lib/utils.ts:120 | no part of `key.split('.')` contains the separator |
| `JsValue.JoinSplit` | packages/core/src/lib/utils.ts:120 | joining the parts of a split with the same separator gives back the string, so splitting loses nothing |
| `DeepMerge.SourceKeys` | packages/core/src/lib/utils.ts:40-44 | the keys visited in a source never include `__proto__` |
| `DeepMerge.Merged` | packages/core/src/lib/utils.ts:46-63 | definition of the value one key ends up with; see `MergeEntry`, which the source's dispatch is proved to compute, and `MergeKeyDispatch`, `SelfMergeEntry`, `ReplaceIdempotentEntry` |
| `DeepMerge.MergedFields` | packages/core/src/lib/utils.ts:39-66 | after `merge(target, src)` the target has its own keys plus the source's keys, and every key the source does not supply keeps its value |
| `DeepMerge.MergedFieldsAt` | packages/core/src/lib/utils.ts:45-64 | each key the source supplies holds the entry merged from the target's old value and the source's value, and that entry does not throw |
| `DeepMerge.MergedSources` | packages/core/src/lib/utils.ts:68-70 | after all sources, the keys are the target's plus those of every source, and keys no source supplies are unchanged |
| `DeepMerge.MergedKey` | packages/core/src/lib/utils.ts:30-73 | a target that is not a plain object is returned as it is; an object target gains exactly the sources' keys and keeps the values of the other keys |
| `DeepMerge.MergeEntry` | packages/core/src/lib/utils.ts:46-63 | the four-way dispatch for one key computes `Merged`: an array target is replaced or concatenated, a function overwrites, two objects merge recursively, anything else is copied |
| `DeepMerge.MergeInto` | packages/core/src/lib/utils.ts:39-66 | the inner `merge` computes `MergedFields` for an object or an array source |
| `DeepMerge.MergeObjectKeys` | packages/core/src/lib/utils.ts:39-66 | the loop over the keys of an object source, other than `__proto__`, in any order, computes `MergedFields` |
| `DeepMerge.MergeArrayKeys` | packages/core/src/lib/utils.ts:39-66 | the loop over the indices of an array source, in order, computes `MergedFields` |
| `DeepMerge.IndexMerged` | packages/core/src/lib/utils.ts:45-64 | after the first `i` indices of an array source are visited, each of them holds its merged entry |
| `DeepMerge.IndicesUntouched` | packages/core/src/lib/utils.ts:45-64 | after the first `i` indices are visited, a key that is none of them is unchanged, present or absent alike |
| `DeepMerge.ArrayMergeComplete` | packages/core/src/lib/utils.ts:39-66 | visiting every index of an array source in order gives `MergedFields` |
| `DeepMerge.DeepMergeKey` | packages/core/src/lib/utils.ts:30-73 | the source's algorithm, with its early return and its loop over the sources, computes `MergedKey` |
| `DeepMerge.DeepMerge` | packages/core/src/lib/utils.ts:80-82 | `deepMerge` is `deepMergeKey` with arrays concatenated |
| `DeepMergeProperties.NoSourcesNoChange` | packages/core/src/lib/utils.ts:68-72 | with no sources the target is returned unchanged |
| `DeepMergeProperties.ObjectSources` | packages/core/src/lib/utils.ts:69 | a value is kept by the filter exactly when it is one of the sources and an array or a non-null object |
| `DeepMergeProperties.ObjectSourcesAppend` | packages/core/src/lib/utils.ts:69 | the filter keeps the sources in their order: filtering `a + b` is filtering `a` followed by filtering `b`, and one source is kept alone exactly when it is an object |
| `DeepMergeProperties.NothingKept` | packages/core/src/lib/utils.ts:69 | the filter keeps nothing of sources none of which is an object |
| `DeepMergeProperties.NonObjectSourcesSkipped` | packages/core/src/lib/utils.ts:68-70 | dropping the sources that are not objects changes neither the keys written, nor whether the merge throws, nor its result |
| `DeepMergeProperties.OnlyNonObjectSources` | packages/core/src/lib/utils.ts:68-72 | when no source is an object, the merge does not throw and the target is unchanged |
| `DeepMergeProperties.ProtoKeyNeverWritten` | packages/core/src/lib/utils.ts:40-44 | `__proto__` is in the result exactly when it was in the target, with the same value |
| `DeepMergeProperties.SingleSource` | packages/core/src/lib/utils.ts:68-70 | a single source supplies its own keys and applies one `merge` when it is an object, and nothing otherwise |
| `DeepMergeProperties.MergeKeyDispatch` | packages/core/src/lib/utils.ts:46-63 | per key of one source: an array target becomes the source value (replace) or the concatenation (otherwise); a function overwrites; two objects keep the nested target's other keys and gain the nested source's keys; anything else is copied |
| `DeepMergeProperties.MergedSourcesSnoc` | packages/core/src/lib/utils.ts:68-70 | sources apply left to right: adding a last source applies one more `merge` to the result of the others |
| `DeepMergeProperties.MergedSourcesAppend` | packages/core/src/lib/utils.ts:68-70 | merging the sources `a + b` is merging `a` and then `b` into the result, and it throws exactly when one of the two does |
| `DeepMergeProperties.LastSourceWins` | packages/core/src/lib/utils.ts:52-62 | a key whose last supplying source holds a value that is not an object ends up with exactly that value, whatever sources follow that do not supply it, unless concatenation onto an array applies |
| `DeepMergeProperties.SelfMergeEntry` | packages/core/src/lib/utils.ts:46-63 | merging a value into itself with arrays replaced gives the value back |
| `DeepMergeProperties.SelfMergeFields` | packages/core/src/lib/utils.ts:39-66 | merging an object's properties into themselves with arrays replaced gives them back |
| `DeepMergeProperties.ReplaceIdempotentEntry` | packages/core/src/lib/utils.ts:46-63 | with arrays replaced, merging the same source value twice at one key gives what merging it once gives |
| `DeepMergeProperties.ReplaceIdempotentFields` | packages/core/src/lib/utils.ts:39-66 | with arrays replaced, merging the same source twice gives what merging it once gives |
| `DeepMergeProperties.ReplaceIdempotent` | packages/core/src/lib/utils.ts:30-73 | `deepMergeKey(deepMergeKey(o, true, s), true, s)` equals `deepMergeKey(o, true, s)`, and the second call does not throw |
| `DeepMergeProperties.ConcatTwiceExample` | packages/core/src/lib/utils.ts:48-51 | concatenation is not idempotent: merging `{arr: [3]}` twice into `{arr: [1, 2]}` gives `[1, 2, 3, 3]` |
| `DeepMergeProperties.AddOneKey` | packages/core/src/lib/utils.ts:61-62 | a new key with a primitive value is copied into the target |
| `DeepMergeProperties.ArrayPolicyExample` | packages/core/src/lib/utils.spec.ts:129-141 | `{arr: [1, 2]}` merged with `{arr: [3]}` gives `[1, 2, 3]` when concatenating and `[3]` when replacing |
| `DeepMergeProperties.MergeWorkingExample` | packages/core/src/lib/utils.spec.ts:68-92 | the nested `b` keeps `c` and gains `d`, `fn` is overwritten, `arr` is copied, and `a`, `arr2`, `str`, `time` and `bool` keep their values |
| `DeepMergeProperties.ArrayTargetExample` | packages/core/src/lib/utils.spec.ts:93-100 | an array target is returned as it is |
| `DeepMergeProperties.SeveralSourcesExample` | packages/core/src/lib/utils.spec.ts:101-110 | two sources each add their key to the target |
| `DeepMergeProperties.BlankValuesExample` | packages/core/src/lib/utils.spec.ts:111-119 | `null` and `undefined` values of a source are copied |
| `DeepMergeProperties.BlankSourcesExample` | packages/core/src/lib/utils.spec.ts:120-126 | `null` and `undefined` sources leave an empty target empty |
| `PathLookup.CastPath` | packages/core/src/lib/utils.ts:16 | a list of segments is used as it is, and the segments of a dotted string join back into that string |
| `PathLookup.Walk` | packages/core/src/lib/utils.ts:16 | definition of lodash `baseGet`, the walk `get` makes over the segments; see `WalkResolves` |
| `PathLookup.WalkResolves` | packages/core/src/lib/utils.ts:16 | walking the segments gives the value they resolve to, and `undefined` when a step is missing or blank |
| `PathLookup.DeepGet` | packages/core/src/lib/utils.ts:10-17 | definition of `deepGet`; see `DeepGetSegments`, `DeepGetGuards` and `DottedIsSegments` |
| `PathLookup.DeepGetSegments` | packages/core/src/lib/utils.ts:10-17 | for a list of segments, `deepGet` gives the resolved value exactly when the object is truthy, the list is non-empty and the value is present and not `undefined`; otherwise it gives the default |
| `PathLookup.DeepGetGuards` | packages/core/src/lib/utils.ts:15 | a falsy object, a null path, an empty list and an empty string all give the default |
| `PathLookup.DottedIsSegments` | packages/core/src/lib/utils.ts:16 | a dotted string that is not itself a property resolves like its segments split at `.` |
| `PathLookup.SplitWithoutSeparator` | packages/core/src/lib/utils.ts:16 | a string without `.` is a single segment |
| `PathLookup.DottedLiteralKey` | packages/core/src/lib/utils.ts:16 | a dotted string that is a property of the object is read as that one key |
| `PathLookup.SegmentExamples` | packages/core/src/lib/utils.spec.ts:20-33 | `['status']` gives `'ok'`, `['response', 'total']` gives `10`, and a missing first or nested key gives the default |
| `PathLookup.DefaultExamples` | packages/core/src/lib/utils.spec.ts:34-45 | a null path, an empty path and a null object give the default |
| `PathLookup.DottedPathExample` | packages/core/src/lib/utils.spec.ts:46-48 | `'response.total'` gives `10` |
| `PathLookup.DottedKeyExample` | packages/core/src/lib/utils.spec.ts:49-51 | `'status'` gives `'ok'` |
| `PathLookup.MissingMiddleExample` | packages/core/src/lib/utils.spec.ts:52-54 | `'res.address.city'` on `{res: {}}` gives `undefined` |
| `PathLookup.FalsyValueExample` | packages/core/src/lib/utils.spec.ts:55-58 | a present `0` is returned, not the default |
| `Interpolation.FirstIndexOf` | packages/core/src/lib/utils.ts:119 | finds the first occurrence of a character, and none exactly when the character does not occur |
| `Interpolation.PlaceholderAt` | packages/core/src/lib/utils.ts:119 | a placeholder starts at the head of the text exactly when the text opens with `${` and has a `}` after a non-empty key; the result is the first such `}` |
| `Interpolation.Interpolate` | packages/core/src/lib/utils.ts:119 | definition of the `replace` scan with `/\${([^}]+)}/g`; see `HoleReplaced`, `KeptHead`, `InterpolateSource` and `NoPlaceholderUnchanged` |
| `Interpolation.Replacement` | packages/core/src/lib/utils.ts:120 | definition of the text a placeholder becomes in either mode; see `DeepReplacement` and `ShallowReplacement` |
| `Interpolation.Format` | packages/core/src/lib/utils.ts:119 | a missing template gives `""` |
| `Interpolation.LiteralPrefix` | packages/core/src/lib/utils.ts:119 | text in which no `${` occurs, and which does not end in a `$` that the rest of the template turns into `${`, is copied, `$` included, and the rest is formatted after it |
| `Interpolation.KeptHead` | packages/core/src/lib/utils.ts:119 | where no placeholder starts, the first character is copied and the scan moves on by one |
| `Interpolation.HoleReplaced` | packages/core/src/lib/utils.ts:119-121 | a placeholder `${key}` is replaced by the key's replacement and scanning resumes after it |
| `Interpolation.InterpolateSource` | packages/core/src/lib/utils.ts:119-121 | a template built of text pieces and placeholders is filled piece by piece, whenever no text piece opens a `${` on its own or together with what follows it; text may hold `$` |
| `Interpolation.NoOpeningUnchanged` | packages/core/src/lib/utils.ts:119 | a template in which no `${` occurs is returned unchanged, any `$` included |
| `Interpolation.NoPlaceholderUnchanged` | packages/core/src/lib/utils.ts:119 | a template at none of whose positions a placeholder starts is returned unchanged, `${` without a key or without a closing `}` included |
| `Interpolation.DeepReplacement` | packages/core/src/lib/utils.ts:120 | in deep mode, a key is replaced by the string of the value its dotted path resolves to, and by `""` when the data is falsy or the value is missing or `undefined` |
| `Interpolation.ShallowReplacement` | packages/core/src/lib/utils.ts:120 | in shallow mode, a key is replaced by the string of the data's property, and by `""` when the data, or the property, is falsy or missing |
| `Interpolation.ModesAgreeOnTruthyValue` | packages/core/src/lib/utils.ts:120 | for a key without `.` whose value is truthy, both modes give the value's string |
| `Interpolation.ModesDifferOnFalsyValues` | packages/core/src/lib/utils.ts:120 | a present `null` gives `"null"` in deep mode and `""` in shallow mode, and `0` gives `"0"` and `""` |
| `Interpolation.NestedReplacement` | packages/core/src/lib/utils.ts:120 | in deep mode, `a.b` on `{a: {b: v}}` gives the string of `v` |
| `Interpolation.FormatPieces` | packages/core/src/lib/utils.ts:114-122 | formatting a template of pieces gives its filled pieces, under the same condition on the text pieces as `InterpolateSource` |
| `Interpolation.NamedValueExample` | packages/core/src/lib/utils.spec.ts:145-156 | `'this is ${name}'` with `{name: 'asdf'}` gives `'this is asdf'` |
| `Interpolation.TwoHolesExample` | packages/core/src/lib/utils.spec.ts:147-151 | two placeholders, one with a number, give `'this is asdf, age: 10'` |
| `Interpolation.MissingTemplateExample` | packages/core/src/lib/utils.spec.ts:157-159 | a null template gives `''` |
| `Interpolation.EmptyKeyExample` | packages/core/src/lib/utils.ts:119 | `'a ${} b'` is kept as written, since `[^}]+` needs a non-empty key |
| `Interpolation.MissingValueExample` | packages/core/src/lib/utils.spec.ts:160-166 | empty, `null` or `undefined` data gives `'this is '` |
| `Interpolation.PriceExample` | packages/core/src/lib/utils.ts:119-121 | `'Total: $${amount}'` with `{amount: 5}` gives `'Total: $5'`: the first `$` stays text |
| `Interpolation.DeepHoleExample` | packages/core/src/lib/utils.spec.ts:167-171 | `'this is ${user.name}'` in deep mode gives `'this is '` followed by the name, for any name |
| `Mask.UpperChar` | packages/core/src/lib/utils.ts:168-171 | a lower-case ASCII letter becomes the capital at the same place in the alphabet, and anything but a lower-case letter is kept |
| `Mask.LowerChar` | packages/core/src/lib/utils.ts:172-175 | a capital ASCII letter becomes the lower-case letter at the same place in the alphabet, and anything but a capital is kept |
| `Mask.CaseRoundTrip` | packages/core/src/lib/utils.ts:168-175 | lower-casing a capitalised lower-case letter, or capitalising a lower-cased capital, gives the letter back |
| `Mask.BuiltinTokens` | packages/core/src/lib/utils.ts:164-179 | the built-in tokens are exactly `0`, `9`, `#`, `U`, `L` and `*` |
| `Mask.TokenTable` | packages/core/src/lib/utils.ts:161-181 | the table is the built-ins for a plain mask string; with options, the caller's tokens override same-named built-ins and the other built-ins stay |
| `Mask.NextChar` | packages/core/src/lib/utils.ts:193 | a token takes at most one character |
| `Mask.AfterShift` | packages/core/src/lib/utils.ts:193 | the character taken and the input left make up the input, and an empty input stays empty |
| `Mask.FormatMask` | packages/core/src/lib/utils.ts:154-207 | an empty value gives `""`; otherwise the loop over the mask with its shifting input computes `Masked` |
| `Mask.Masked` | packages/core/src/lib/utils.ts:184-206 | definition of what the `reduce` over the mask pushes, threading the shifted input; see `FormatMask`, `MaskedConcat`, `BuiltinOutputBound` and `ExhaustedInput` |
| `Mask.TokenOutput` | packages/core/src/lib/utils.ts:194-203 | definition of what one token pushes for the character it took: its default when the pattern rejects it, otherwise the transformed or plain character; see `TokenThen` and `HashAcceptsAlphanumerics` |
| `Mask.LiteralsPassThrough` | packages/core/src/lib/utils.ts:187-191 | a mask without tokens is copied whatever the input |
| `Mask.LiteralThen` | packages/core/src/lib/utils.ts:187-191 | non-token mask characters are emitted and take no input |
| `Mask.NoTokensTakeNothing` | packages/core/src/lib/utils.ts:187-191 | non-token mask characters consume no input |
| `Mask.RunTokenCount` | packages/core/src/lib/utils.ts:187-193 | a run of `n` token characters consumes `n` input characters |
| `Mask.MaskedConcat` | packages/core/src/lib/utils.ts:184-206 | masking with `m1 + m2` is masking with `m1`, then masking with `m2` the input that `m1`'s tokens left |
| `Mask.TokenThen` | packages/core/src/lib/utils.ts:187-204 | a token takes the next input character, emits the token's output for it, and the rest of the mask sees the rest of the input |
| `Mask.BuiltinOutputBound` | packages/core/src/lib/utils.ts:164-207 | with the built-in tokens the output is never longer than the mask |
| `Mask.CopyingRun` | packages/core/src/lib/utils.ts:193-203 | a run of a token without a transform, whose pattern accepts every character of the value, copies the value |
| `Mask.CopyingRunPrefix` | packages/core/src/lib/utils.ts:193 | a run of a token only ever reads as many input characters as it is long |
| `Mask.CaseRun` | packages/core/src/lib/utils.ts:168-175 | a run of `U` or `L` over ASCII letters gives them in upper or lower case |
| `Mask.StarRun` | packages/core/src/lib/utils.ts:176-179 | with the built-in tokens, a run of `*` gives as many `*`, whatever the input, even past its end |
| `Mask.HashAcceptsAlphanumerics` | packages/core/src/lib/utils.ts:167 | `#` accepts a character exactly when it is an ASCII letter or digit, and a `#` facing any other character emits nothing |
| `Mask.DigitsAccepted` | packages/core/src/lib/utils.ts:165-167 | `9` and `#` accept every ASCII digit |
| `Mask.ExhaustedInput` | packages/core/src/lib/utils.ts:193-197 | with the built-in tokens, once the input is used up, only literals, the `0` default and `*` emit anything |
| `Mask.BracketsExample` | packages/core/src/lib/utils.spec.ts:180 | `'(###)'` on `'123'` gives `'(123)'` |
| `Mask.CountryCodeExample` | packages/core/src/lib/utils.spec.ts:181-185 | `'+86 ###########'` copies the eleven digits after the prefix |
| `Mask.DashesExample` | packages/core/src/lib/utils.spec.ts:186 | `'#-#-#'` on `'123'` gives `'1-2-3'` |
| `Mask.HiddenDigitsExample` | packages/core/src/lib/utils.spec.ts:187 | `'999****9999'` on `'15900000000'` gives `'159****0000'` |
| `Mask.UpperExample` | packages/core/src/lib/utils.spec.ts:188 | `'UUU'` on `'aBc'` gives `'ABC'` |
| `Mask.LowerExample` | packages/core/src/lib/utils.spec.ts:189 | `'LLL'` on `'ABc'` gives `'abc'` |
| `Mask.PhoneGroupsExample` | packages/core/src/lib/utils.spec.ts:190-194 | `'+86 999-9999-9999'` gives `'+86 159-0000-0000'` |
| `Mask.ZeroPadExample` | packages/core/src/lib/utils.spec.ts:195 | `'900'` on `'1'` pads with the `0` default: `'100'` |
| `Mask.CustomTokenExample` | packages/core/src/lib/utils.spec.ts:203-215 | a custom token `C` whose transform maps `你` to `N` and `好` to `H` gives `'NH123'` for `'CC999'` |
| `Mask.StarAfterInputExample` | packages/core/src/lib/utils.ts:176-179 | `'9*'` on `'1'` gives `'1*'`: `*` emits past the end of the input |
| `Mask.RejectedCharacterExample` | packages/core/src/lib/utils.ts:193-197 | `'99'` on `'a1'` gives `'1'`: the rejected `a` is consumed and drops the first position |

## Left out

- In-place update and aliasing: the merge changes the target object and nested target objects in place and returns the same reference. The model works on values, so any object reachable twice from the target or the sources is not modelled: a source that is the target or shares objects with it, and a target that holds one object under two keys (merging `{a: {z: 1}}` into `{a: X, b: X}` changes `X` in place, so `b` gains `z` as well, while the model changes only `a`).
- The order of `Object.keys` over an object source: every key is written once and no key's result depends on another's, so `DeepMerge.MergeObjectKeys` visits the keys in any order.
- Spreading values other than arrays and strings, such as `Set`, `Map` or `arguments`: a source value that is not an array or a string is treated as not iterable, as a plain object is.
- Sparse arrays and arrays with extra properties: an array is its list of elements.
- Host objects such as `Date` or `RegExp`: they are plain objects with their own enumerable properties, and `String` of any object is `"[object Object]"`.
- Numbers are integers: fractions, `NaN`, `Infinity` and `-0` are not modelled, and `String` of a number is its decimal spelling.
- `toNumber` (utils.ts:95-101): it relies on `parseFloat`, `Number` and `NaN`, which are floating-point coercions.
- `deepCopy` (utils.ts:6-8) is lodash `cloneDeep`, a foreign call, and is the identity on values.
- lodash path syntax beyond `.`, such as brackets `a[0]`, quotes and escapes. lodash's `isKey` recognises more strings as single keys than "has no `.`" or "is a property of the object".
- Property access on primitives (`'abc'.length`, `'abc'[0]`) and on functions: the model reads `undefined`. Arrays do answer `length` and their indices.
- Inherited members in `format`'s shallow lookup: `({})['constructor']` reads a function in JavaScript and `undefined` in the model.
- Inherited members in `deepGet`'s walk: `toString` and similar names read `undefined` in the model.
- Strings are sequences of Unicode scalar values. `value.split('')` splits JavaScript strings into UTF-16 code units, which differs for characters outside the Basic Multilingual Plane.
- `toLocaleUpperCase` and `toLocaleLowerCase` are ASCII case mapping. The patterns of `U` and `L` let only ASCII letters through.
- A global or sticky custom regular expression keeps `lastIndex` between calls to `test`: a custom pattern is a pure test.
- A token `default` that is not a string, such as a number: defaults are strings, and a missing or empty default is `""`.
- A token table entry whose value is `null` or `undefined` (read as a literal by `!token`), and custom token keys longer than one character, which no mask character reaches: the table maps characters to tokens.
- A `value` that is not a string: `null` or `undefined` is modelled by the empty string, which gives `""` as the source does.
- An option whose `mask` is missing: the mask is always a string.
- config.service.ts and validator.factory.ts are not part of this model. They are a configuration singleton built on `deepMergeKey` and a wrapper around the Ajv library.
- The two throws of `deepMergeKey` are preconditions rather than modelled exceptions.
- `JsValue.ToBooleanOfPrimitive`: arrays and functions are left out, because their string is the join of their elements or their source text. `JsValue.ToBooleanExamples` shows an array whose string is `"false"`.
- `PathLookup.DottedIsSegments`: states the equivalence only for a dotted string that is not itself a property, because lodash reads such a property as one key (`PathLookup.DottedLiteralKey`).
