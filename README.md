# vue-css-modifiers, modelled in Dafny

vue-css-modifiers is a Vue directive that toggles CSS modifier classes. It
runs on the `bind` and `update` hooks. The directive's value names the
modifiers:

- a string;
- an array of strings;
- an object mapping camel-case keys to booleans.

For every modifier the hook finds out whether it is on, builds a class name,
and adds that class to the bound element's class list or removes it:

- for a string or an array, the modifier is on when the component state
  property named by the camel-case form of the modifier is truthy;
- for an object, the modifier is on when the object's own boolean says so.

The class name depends on the naming mode:

- default: the name unchanged;
- force-is-prefix: an `is-` prefix;
- BEM: `base--modifier`, where the base is the directive argument or the
  first class of the element's previous class string that is not itself a
  modifier.

The repository ships the hook twice:

- `src/index.js` validates the value by hand;
- `index.js` validates it with a JSON schema.

Apart from validation the two copies do the same. The model therefore has one
Dafny member for each shared helper and one hook per copy.

Modules:

- `JsValues` (js_values.dfy): the JavaScript values the hook meets, with
  `typeof`, truthiness, `===`, `Object.keys` and property access.
- `Casing` (casing.dfy): `kebab2Camel` and `camel2Kebab`.
- `ClassList` (class_list.dfy): the element's DOMTokenList. It is a class
  whose `classes` field the methods `Add` and `Remove` update in place.
  Both methods throw on an empty token or one that holds ASCII whitespace.
- `Naming` (naming.dfy): the mode chain, the `is-` prefix, the single-space
  split of the previous class string and the BEM base.
- `Validation` (validation.dfy): the hand-written checks and the schema.
- `VNodes` (vnodes.dfy): `checkIfSameClasses`.
- `Effects` (effects.dfy): the specification. It gives, as functions of the
  class list before the call, the class list after it and how the call ends.
  The call returns 0 or -1, or a class-list exception escapes it.
- `Directive` (directive.dfy): the hook and its helpers as imperative methods
  on an `Element`. Their loops carry invariants that tie each prefix of the
  work done to the specification functions.
- `Scenarios` (scenarios.dfy): concrete runs of both hooks. Some come from
  the expectations in test/index.test.js; the others single out one branch of
  the source.

## Model

| member | source | states |
|---|---|---|
| `JsValues.Keys` | src/index.js:61 | `Object.keys` of a plain object: one key per entry, in entry order |
| `JsValues.Lookup` | src/index.js:67 | `value[key]`: undefined when the key is absent; otherwise the value stored under the key |
| `Casing.Kebab2Camel` | src/index.js:198-200 | The result is never longer than the name. A name that does not start with a lower-case letter gives a result that does not either. No `-[a-z]` pair remains in the result. A digit match is covered by `Casing.Kebab2CamelMatch`; a `-[0-9]` pair can remain, as in `--1` giving `-1`. index.js:208 is the same |
| `Casing.DigitRun` | src/index.js:202 | The greedy `\d+` match: a run of digits followed by a non-digit or by the end. It is non-empty when the name starts with a digit |
| `Casing.Camel2Kebab` | src/index.js:201-203 | The output holds no ASCII upper-case letter. index.js:209 is the same |
| `Casing.Camel2KebabIdentity` | src/index.js:202 | A name with neither upper-case letters nor digits is left unchanged |
| `Casing.Camel2KebabDigits` | src/index.js:202 | A leading digit run gets one hyphen in front of it and is kept as it is |
| `Casing.Kebab2CamelHyphenFreePrefix` | src/index.js:199 | A prefix without hyphens passes through kebab2Camel untouched |
| `Casing.Kebab2CamelMatch` | src/index.js:199 | One match `-c` becomes the upper-cased `c` |
| `Casing.KebabCamelKebab` | index.js:208-209 | `camel2Kebab(kebab2Camel(s)) == s` whenever `s` has no upper-case letters and no digits, which includes lower-case words joined by hyphens |
| `Casing.CamelKebabCamel` | src/index.js:198-203 | `kebab2Camel(camel2Kebab(s)) == s` for every hyphen-free `s`, such as camel-case object keys |
| `Casing.CamelKebabCamelDigits` | src/index.js:198-203 | The same round trip when the name starts with a digit run |
| `ClassList.TokenError` | src/index.js:156-160 | `classList.add` and `remove` throw SyntaxError exactly on the empty token, and InvalidCharacterError on a token holding ASCII whitespace |
| `ClassList.AddToken` | src/index.js:157 | After `add`, the token is present and no other token's membership changed. A present token leaves the list as it was. Distinct tokens stay distinct |
| `ClassList.RemoveToken` | src/index.js:159 | After `remove`, the token is absent and no other token's membership changed. An absent token leaves the list as it was. Distinct tokens stay distinct |
| `ClassList.ApplyToken` | src/index.js:156-160 | The class is present afterwards exactly when `add` is truthy, and every other class keeps its membership |
| `ClassList.ApplyTokenIdempotent` | src/index.js:156-160 | Applying the same add or remove twice gives what applying it once gives |
| `ClassList.Element.constructor` | src/index.js:95 | An element with the given well-formed class list |
| `ClassList.Element.Add` | src/index.js:157 | Returns the exception `add` throws, if any. Otherwise the class list becomes `AddToken` of the old one. It stays well formed |
| `ClassList.Element.Remove` | src/index.js:159 | Returns the exception `remove` throws, if any. Otherwise the class list becomes `RemoveToken` of the old one. It stays well formed |
| `Naming.ResolveMode` | src/index.js:99-113 | The last rule that applies wins. The mode is BEM iff the name is `bem`, or it is not `is` and the `bem` modifier is set. It is force-is-prefix iff the name is `is`, or it is not `bem` and `is` is set without `bem`. Otherwise it is default. index.js:126-132 is the same |
| `Naming.IsBemFlag` | src/index.js:57 | The `isBem` flag holds iff the mode is BEM, or the directive is registered as `is` with the `bem` modifier |
| `Naming.BemFlagVersusMode` | src/index.js:57 | The hook's `isBem` flag holds whenever the mode is BEM. The two differ exactly for a directive registered as `is` with the `bem` modifier |
| `Naming.WithIsPrefix` | src/index.js:121 | The result starts with `is-`. It equals the name iff the name already starts with `is-`, and is `is-` plus the name otherwise |
| `Naming.WithoutIsPrefix` | src/index.js:152 | `replace(/^is-/, '')` removes one leading `is-` when there is one, and changes nothing otherwise |
| `Naming.IsPrefixLaws` | src/index.js:120-122 | Forcing the prefix is idempotent. Stripping undoes forcing. Only one `is-` is ever stripped |
| `Naming.SplitOnSpace` | src/index.js:133 | `split(' ')` yields at least one piece, and no piece holds a space |
| `Naming.JoinSplit` | src/index.js:139 | Joining the pieces of `split(' ')` with single spaces gives back the string, so empty pieces are kept |
| `Naming.SplitAfterPiece` | src/index.js:139 | A space-free prefix joins the first piece of the rest |
| `Naming.SplitJoin` | src/index.js:139 | Splitting pieces joined with single spaces gives back the pieces |
| `Naming.BaseCandidates` | src/index.js:138-140 | The filter keeps exactly the tokens without `--`. Its first element is the first such token |
| `Naming.ForceIsPrefixClass` | src/index.js:120-122 | The force-is-prefix class always starts with `is-`, and a name already starting with `is-` is kept |
| `Naming.BemExplicitBase` | src/index.js:129-135 | With an argument there is a class iff the previous class string is non-empty and holds the argument as a space-separated token. That class is `arg--` plus the name with one `is-` removed |
| `Naming.BemImplicitBase` | src/index.js:136-149 | Without an argument there is no class iff the previous class string is absent or empty, or every token holds `--`. Otherwise the base is the first token without `--` |
| `Naming.BemBase` | src/index.js:128-149 | The contract is stated by `Naming.BemExplicitBase` and `Naming.BemImplicitBase`: the argument, if it is a token of a non-empty previous class string; otherwise the first token without `--` |
| `Naming.ModifierClass` | src/index.js:115-153 | The contract is stated by `Naming.ModifierClassEndsWithName`, `Naming.ForceIsPrefixClass`, `Naming.BemExplicitBase`, `Naming.BemImplicitBase` and `Naming.BemClassHasSeparator` |
| `Naming.ModifierClassEndsWithName` | src/index.js:115-153 | Only a BEM modifier without a base gets no class. In every mode the class ends with the modifier name less one leading `is-` |
| `Naming.BemClassHasSeparator` | src/index.js:152 | Every BEM class holds `--` |
| `Validation.CheckValue` | src/index.js:26-41 | The checks accept exactly a string, an array of strings and an object of booleans. The first failure is null/undefined exactly for those values, and wrong type exactly for booleans and numbers |
| `Validation.SchemaAccepts` | index.js:27-35 | The schema refuses undefined, null, booleans and numbers. It accepts every string and every object of booleans |
| `Validation.CheckValueVersusSchema` | index.js:27-35 | Whatever the hand-written checks accept, the schema accepts. The schema also accepts objects whose keys missed by `.` hold non-booleans, and nothing else |
| `Validation.SchemaLetsUnmatchedKeysThrough` | index.js:34 | A non-boolean under the key `""` or under `"\n"` passes the schema and fails the hand-written check |
| `VNodes.SameClasses` | src/index.js:166-193 | True only with an old node and two truthy declarations of the same `typeof`. Strings compare by `===`. Booleans and numbers give false |
| `VNodes.SameArrays` | src/index.js:184-186 | Only an old array can match. Every member of the new array is then a primitive that occurs in the old array, since `===` never matches arrays or objects |
| `VNodes.SameObjects` | src/index.js:188-192 | Every value of the new object is then a primitive that the old declaration holds under the same key. An old object then has as many keys |
| `VNodes.SameClassesArrays` | index.js:191-192 | Two arrays are the same iff they have equal lengths and every new member occurs in the old array |
| `VNodes.SameClassesArrayReflexive` | index.js:191-192 | An array of primitives is the same as itself |
| `VNodes.ArrayComparisonIsLoose` | index.js:191-192 | The comparison is not multiset equality. `[a,a,b]` against `[a,b,b]` gives true, and `[a,a]` against `[a,b]` gives true while the reverse gives false |
| `VNodes.SameClassesObjects` | index.js:194-200 | Two objects are the same iff they have equally many keys and every new key is in the old object with an identical value |
| `VNodes.SameClassesObjectReflexive` | index.js:194-200 | An object of primitives is the same as itself |
| `Effects.ElemClassEffect` | src/index.js:95-161 | setElemClass does nothing when BEM finds no base. Otherwise it throws the class list's exception for the built class, with no change. Or the class is present iff `add` is truthy and every other class keeps its membership. index.js:120-172 is the same |
| `Effects.ClassByNameEffect` | src/index.js:76-90 | Returns -1 iff the state property `kebab2Camel(name)` is undefined or null, and then changes nothing. Otherwise it is setElemClass with that property. It returns 0 or -1 unless the class list throws. index.js:99-115 is the same |
| `Effects.ClassByNameOutcome` | src/index.js:86-89 | With the property present, setClassByName throws exactly what setElemClass throws, and returns 0 otherwise |
| `Effects.ArrayEffect` | src/index.js:47-55 | The status of an array value is 0 or -1 unless the class list throws |
| `Effects.ArrayEffectAppend` | src/index.js:48-52 | Processing `xs + ys` is processing `xs` and then, if that returned 0, `ys` from the list it left |
| `Effects.ArrayEffectSnoc` | src/index.js:48-52 | Processing one more name is setClassByName after the earlier names returned 0 |
| `Effects.ArrayEffectStep` | src/index.js:48-52 | One iteration of the loop. Once a prefix stops short of 0, the whole array ends the same way |
| `Effects.ArrayEffectStopsAtMissing` | src/index.js:48-52 | At the first name whose property is missing, the hook returns -1. The earlier names stay applied and the later ones are untouched |
| `Effects.ArrayEffectFailure` | src/index.js:47-55 | -1 comes only from a name whose property is missing, after every earlier name returned 0, with their effects kept |
| `Effects.ArrayEffectNoMissing` | src/index.js:47-55 | With every property present, an array never returns -1 |
| `Effects.KeyUnchanged` | src/index.js:63 | A skipped key holds a primitive equal to the one under the same key of the previous value. No key is skipped when the directive is BEM and the classes changed |
| `Effects.ObjectEffect` | src/index.js:57-70 | An object value returns 0 unless the class list throws. It never returns -1 |
| `Effects.ObjectEffectAppend` | src/index.js:61-68 | Processing `xs + ys` is processing `xs` and then, unless it threw, `ys` from the list it left |
| `Effects.ObjectEffectSnoc` | src/index.js:61-68 | Processing one more key comes after the earlier keys |
| `Effects.ObjectEffectStep` | src/index.js:61-68 | One iteration of the loop. Once a prefix throws, the whole object ends the same way |
| `Effects.KeyEffectSkipsExactlyUnchanged` | src/index.js:62-67 | A key is skipped, with no change, exactly when `oldValue` is truthy, `value[key] === oldValue[key]`, and either the directive is not BEM or the classes are the same. Every other key is setElemClass of `camel2Kebab(key)` with its value |
| `Effects.ObjectEffectAllUnchanged` | src/index.js:62-65 | When every key is unchanged, the class list is exactly as it was and the status is 0 |
| `Effects.ObjectReappliedIsNoop` | src/index.js:62-65 | An object of booleans applied again with itself as `oldValue` changes nothing, unless the directive is BEM and the classes changed |
| `Effects.Names` | src/index.js:48 | The strings of an array of strings, in order |
| `Effects.DispatchEffect` | src/index.js:43-70 | The status is 0 or -1 unless the class list throws. An object never gives -1. -1 comes only from a string or an array member whose state property is missing |
| `Effects.HookEffect` | src/index.js:22-71 | A value the checks refuse gives -1 with no change. Once the checks pass, an object never gives -1 |
| `Effects.SchemaHookEffect` | index.js:38-94 | A value the schema refuses gives -1 with no change. Once the schema passes, an object never gives -1 |
| `Effects.StringValueIsClassByName` | index.js:58-59 | For a string value both hooks are setClassByName, returning -1 exactly when the property is missing. src/index.js:43-45 is the same |
| `Effects.HookOutcomes` | index.js:43-52 | Both hooks reject with -1 and no change: null or undefined, a value the hand-written checks refuse (src/index.js:26-41), or a value the schema refuses. Otherwise the status is 0 or -1 unless the class list throws |
| `Effects.ObjectValueNeverFails` | index.js:84-93 | An accepted object value never returns -1, even when BEM gating skips its keys. It returns 0 unless the class list throws |
| `Effects.HooksAgree` | index.js:27-52 | The two hooks behave alike on every value except an object whose keys missed by the pattern `.` hold a non-boolean |
| `Effects.HooksDisagree` | index.js:48-52 | The other half of `Effects.HooksAgree`. An object the schema accepts, with a non-boolean under a key missed by `.`, gets -1 with no change from src/index.js:38-41. The schema hook does not return -1 for it |
| `Directive.SetElemClass` | src/index.js:95-161 | Updates the element in place. It returns the thrown exception, and both the new class list and the exception are those of `ElemClassEffect` |
| `Directive.SetClassByName` | src/index.js:76-90 | Updates the element in place. The new class list and the outcome are those of `ClassByNameEffect` |
| `Directive.ApplyNames` | src/index.js:47-55 | The array loop with its early return. The new class list and the outcome are those of `ArrayEffect`. index.js:65-74 is the same |
| `Directive.ApplyKeys` | src/index.js:61-70 | The object loop with `continue` for unchanged keys. The new class list and the outcome are those of `ObjectEffect`. index.js:84-93 is the same |
| `Directive.Dispatch` | src/index.js:43-70 | A string, an array or an object. For an object, `isBem` and checkIfSameClasses are computed once before the loop. The result is `DispatchEffect` |
| `Directive.Hook` | src/index.js:22-71 | The checks in order, each returning -1 with no change, then the value is applied. The result is `HookEffect` |
| `Directive.SchemaHook` | index.js:38-94 | Null or undefined, then the schema, each returning -1 with no change, then the value is applied. The result is `SchemaHookEffect` |
| `Scenarios.StringValueHook` | src/index.js:43-44 | A string value with its property present is setElemClass on it, in both hooks |
| `Scenarios.StringValueAdds` | test/index.test.js:63-65 | `is-hidden` with `isHidden` true is added next to `static-class`, in both hooks |
| `Scenarios.StringValueRemoves` | test/index.test.js:46-50 | `is-hidden` with `isHidden` false is removed, in both hooks. The test checks only that `is-hidden` is gone; the `static-class` neighbour that stays is the model's own addition |
| `Scenarios.RegisteredIsForcesPrefix` | test/index.test.js:129-130 | A directive registered as `is` turns `hidden` into `is-hidden`, in both hooks |
| `Scenarios.RegisteredBemBuildsBemClass` | test/index.test.js:129-131 | A directive registered as `bem`, with previous class `base-class`, adds `base-class--hidden`, in both hooks |
| `Scenarios.BemWithoutPreviousClass` | test/index.test.js:92-94 | BEM with no previous class touches nothing and returns 0, in both hooks |
| `Scenarios.BemExplicitBaseAbsent` | test/index.test.js:112-114 | An explicit base missing from the previous class string touches nothing and returns 0, in both hooks |
| `Scenarios.BemModifierTokenIsNoBase` | src/index.js:138-146 | A previous class `modifier--other` offers no base |
| `Scenarios.BemEmptyTokenIsABase` | src/index.js:138-148 | A previous class `card--active ` makes the empty piece the base, giving the class `--hidden` |
| `Scenarios.ArrayStopsAtMissingName` | src/index.js:48-52 | `["a", "b"]` with `a` missing returns -1 before `b` is applied, in both hooks |
| `Scenarios.NumberIsRefused` | src/index.js:30-33 | A number is refused by both hooks with -1 and no change |
| `Scenarios.EmptyObjectKeyThrows` | src/index.js:67 | The object `{"": true}` passes the checks and the schema, and then `classList.add("")` throws SyntaxError in both hooks |

## Left out

- Diagnostics: `logError` and `console.error` are output only. A rejection
  shows up as the -1 status; the message text is not modelled.
- The AJV library: only the schema at index.js:27-35 is modelled, as a
  predicate. `ajv.errorsText` is not modelled.
- Vue itself: reactivity, `nextTick`, vnode diffing and the choice of hook
  are outside the model. The hook's inputs are explicit parameters:
  - the binding (`name`, `modifiers`, `arg`, `value`, `oldValue`);
  - `vnode.elm._prevClass`;
  - `vnode.data.class` and `oldVnode.data.class`;
  - `vnode.context._data`, with a missing key read as undefined.
- `'arg' in binding` is read as "an argument was written". An argument that
  is present but undefined is not distinguished.
- JavaScript values are limited to undefined, null, booleans, numbers,
  strings, arrays and plain objects. Functions, dates, symbols and other
  exotic objects that pass `typeof === 'object'` are left out, and so are
  NaN and the infinities.
- Property access reads own properties only: object entries, plus `length`
  and canonical indices of arrays and strings. Inherited properties such as
  `toString` are not modelled.
- `===` on arrays and objects is always false. The model takes every array
  and object it describes to be a separate allocation. The identity of a
  shared object is not modelled.
- Strings are sequences of code points, not UTF-16 code units. Case
  conversion covers ASCII letters only, as both converter patterns do.
- `JsValues.Json`: an `Obj` may list the same key twice, which no JavaScript
  object can. Lookups read the first entry for a key, and no lemma relies on
  distinct keys. `Object.keys` then lists such a key once per entry.
- `Object.keys` order is the order of an object's entries. JavaScript's
  ordering of integer-like keys first is not modelled.
- `VNodes.SameClasses`: when the new declaration is an array and the old one
  is a plain object, the model always gives false. The source does not:
  - it returns true when the array is empty and the object's `length` equals
    0. src/index.js:185 compares the lengths with `===`; index.js:192 compares
    them with `==`, so a `length` of `"0"` matches too;
  - it throws when the array is non-empty and the lengths agree, because the
    object has no `includes` method.
- The status of an object value is 0 only when no class-list exception
  escapes. A key such as `""`, or a key holding whitespace, makes
  `classList.add` or `remove` throw; see `Scenarios.EmptyObjectKeyThrows`.
