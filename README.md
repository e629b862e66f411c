# formality: fields, the form store and the validation rules

This project models the logic of formality, a small React form library, and
proves properties of the model. It covers three parts:

- **The field (`Field`).** A field holds a value, a validity flag and an
  error message. It keeps them in its own state, or it delegates them to an
  enclosing form. `validate()` calls the field's rules in order on the
  current value:
  - it stops at the first synchronous result that normalises to invalid;
  - it sets promise results aside and keeps going;
  - any object result with a `message` property replaces the pending error
    message;
  - it then records the verdict, or first waits for the promises to settle.
- **The form store (`Form`).** This is one flat map. The entry `attr` of
  field `name` lives under the key `_field_<name>_<attr>`.
  - Fields register, write and read their entries through it.
  - The form is valid when every entry matched by `/^_field_.*?_valid$/` is
    truthy.
  - `values()` recovers the field names from the `value` keys with
    `/^_field_(.*?)_value$/`.
  - `reset(except)` nulls every field that has a `value` entry and is not
    excepted.
  - Submission is gated on validity.
- **The rules.** `Length`, `compose`, `Equal` and `Required` are pure
  functions from a rule's props to a result.

## How the model is laid out

| file | module | contents |
|---|---|---|
| `js_values.dfy` | `JsValues` | JavaScript primitives, truthiness, `v + ""`, `===` and `==` |
| `outcomes.dfy` | `Outcomes` | rule results, settled promises, and the `isValid` normaliser used inside `validate()` |
| `rule_length.dfy`, `rule_compose.dfy`, `rule_equal.dfy`, `rule_required.dfy` | one module per rule | the rules, as functions with their contracts |
| `form.dfy` | `FormStore` | the key encoding, the two regular expressions, specification functions over the state map, and `class Form` |
| `field.dfy` | `FieldController` | rule extraction from children, the scan that `validate()` performs, settlement of the promise batch, and `class Field` |

Modelling choices:

- **Form.** `Form` is a class with two fields:
  - `state`, the map;
  - `changes`, the number of times `onChange` has been called.

  Its methods run the source's own loops. Each loop is proved against a
  specification function (`Write`, `ResetState`, `ValueMap`, `AllValid`),
  and the properties are proved about those functions as lemmas.
- **Field.** `Field` is a class with a nullable `form` reference. It stands
  for the context functions the form hands down.
- **Promises.** A promise is modelled as its already-settled outcome.
- **Splitting `validate()`.**
  - `Field.Validate` is the synchronous part. It either records the verdict
    or returns the batch of promises.
  - `Field.Settle` is the continuation registered with `.then`.
  - `Validate` is specified against the pure scan `Scan`/`Decide`.
  - `Settle` is specified against `AsyncVerdict`.
- **Rules.** A rule's function is modelled as a total Dafny function from
  props to a result: the model assumes rules that return without throwing
  and without side effects (see "## Left out").

## Model

| member | source | states |
|---|---|---|
| JsValues.Truthy | src/rules/Required.js:3 | `!!v`: undefined, null, false, 0 and the empty string are falsy, everything else is truthy (the truthiness every rule and `isValid` test) |
| JsValues.ToJsString | src/rules/Length.js:2 | `v + ""` for each kind of value; `TruthyToStringNonEmpty` is proved about it |
| JsValues.StrictEquals | src/rules/Equal.js:6 | `a === b` on the modelled primitives (no NaN), which is structural equality; `LooseEqualsProperties` relates it to `==` |
| JsValues.LooseEquals | src/rules/Equal.js:8 | `a == b` by JavaScript's abstract equality on comparable pairs; `LooseEqualsProperties` and `LooseIsStrictOnSameKind` are proved about it |
| JsValues.TruthyToStringNonEmpty | src/rules/Length.js:2-4 | a truthy value never converts to the empty string, so `Length` returns early only for falsy values |
| JsValues.LooseIsStrictOnSameKind | src/rules/Equal.js:5-9 | on operands of the same kind, `==` and `===` agree |
| JsValues.LooseEqualsProperties | src/rules/Equal.js:5-9 | `===` implies `==`, and `==` is symmetric |
| Outcomes.Normalise | src/Field.js:92-102 | an object result yields the truthiness of its `valid` and, when it has a `message` property, replaces the pending message; any other result yields its truthiness and keeps the message |
| Outcomes.VerdictIgnoresMessage | src/Field.js:92-102 | the normalised verdict does not depend on the pending message |
| Outcomes.RejectionMessage | src/Field.js:141-146 | a rejection replaces the message only when it is an object with a truthy `message` and a `valid` property |
| LengthRule.Length | src/rules/Length.js:1-32 | a falsy value passes with `{valid: true}`; a truthy `is` gives the bare boolean `length === is`; otherwise `valid` holds iff the length is below `lessThan` and above `greaterThan` (each when set), the message names the bound checked last, and the key is `"length"` |
| LengthRule.NoBoundsPasses | src/rules/Length.js:15-31 | with no bound set, a non-empty value gives `{valid: true, message: "", key: "length"}` |
| LengthRule.LengthWellFormed | src/rules/Length.js:1-32 | every result of `Length` is one the validation pipeline can process |
| ComposeRule.OrNull | src/rules/compose.js:9 | a missing `message` or `key` defaults to null, and a given one is kept |
| ComposeRule.Compose | src/rules/compose.js:9-21 | the built validator returns `true` for a falsy value; otherwise it returns `{valid: !!fn(value), message, key}` |
| ComposeRule.FalsyIgnoresPredicate | src/rules/compose.js:10-13 | for a falsy value, the predicate is never consulted, so any two predicates give the same result |
| ComposeRule.MessageAndKeyFixed | src/rules/compose.js:15-19 | the result's message and key do not depend on the value or the verdict |
| EqualRule.Equal | src/rules/Equal.js:1-15 | with `strict`, `valid` is `value === to`, otherwise `value == to`; the key is always `"equal"` and the message always `"Value must match"` |
| EqualRule.StrictPassImpliesLoosePass | src/rules/Equal.js:5-9 | a value that passes the strict comparison also passes the loose one |
| RequiredRule.Required | src/rules/Required.js:1-7 | `valid` is exactly the truthiness of the value; the key is always `"required"` and the message always `"This field is required"` |
| FormStore.Key | src/Form.js:43 | the template literal `_field_${name}_${key}`; `KeyParts`, `KeyInjective` and the matcher lemmas are proved about it |
| FormStore.MatchValueKey | src/Form.js:167-169 | `key.match(/^_field_(.*?)_value$/)` and its capture; `ValueKeyRoundTrip` and `MatchValueKeyEncodes` are proved about it |
| FormStore.MatchesValidKey | src/Form.js:152-154 | `/^_field_.*?_valid$/.test(key)`; `ValidMatcherSeesOnlyValid` is proved about it |
| FormStore.Encode | src/Form.js:41-44 | the `newState` object `setFieldState` builds; `EncodeLookup` is proved about it |
| FormStore.Write | src/Form.js:34-47 | the state after `setFieldState`, the old state merged with `Encode`; `WriteFrame` and `WriteKeepsOtherFields` are proved about it |
| FormStore.AllValid | src/Form.js:151-159 | the value `isValid()` returns; `AllValidByField`, `RegisteredUnvalidatedIsInvalid` and `AllValidIgnoresOtherEntries` are proved about it |
| FormStore.ValueNames | src/Form.js:167-171 | the names `/^_field_(.*?)_value$/` captures from the state's keys, which `reset` clears; `ValueNamesSpec` and `ValueNamesStep` are proved about it |
| FormStore.Assign | src/Form.js:55 | `obj[name] = v` on an object created as `{}`: every name becomes an own property, except `__proto__` while the object still inherits `Object.prototype`; a null value assigned that way empties the prototype chain |
| FormStore.ValueMap | src/Form.js:166-175 | the object `values()` returns; `ValueMapSpec` is proved about it |
| FormStore.ResetState | src/Form.js:61-82 | the state after `reset(except)`; `ResetSpec` is proved about it |
| FormStore.WellKeyed | src/Form.js:34-47 | every key is `_field_<name>_<attr>` for one of the four attributes the form writes |
| FormStore.WriteKeepsWellKeyed | src/Form.js:34-47 | a write of the form's own attributes keeps every key one of the form's own |
| FormStore.ResetKeepsWellKeyed | src/Form.js:61-82 | `reset` adds only keys of the form's own attributes |
| FormStore.Form.Valid | src/Form.js:84-125 | the form's state holds only the entries its operations write; the constructor establishes it and `Register`, `SetValue`, `SetFieldValid` and `Reset` (and the field methods writing through the form) require and keep it, so `AllValidByField` applies to every form reached through them |
| FormStore.KeyParts | src/Form.js:43 | a key consists of the prefix, the name, an underscore and the attribute, at fixed positions |
| FormStore.ValueKeyRoundTrip | src/Form.js:167-173 | decoding a name's `value` key gives back exactly that name (for names without line terminators) |
| FormStore.MatchValueKeyEncodes | src/Form.js:167-173 | every key the value matcher accepts is the `value` key of the name it captures |
| FormStore.ValidMatcherSeesOnlyValid | src/Form.js:152-154 | among the keys the form writes, the validity pattern accepts exactly the `valid` keys |
| FormStore.KeyInjective | src/Form.js:43 | the keys of the form's four attributes never collide, across fields or across attributes |
| FormStore.Lookup | src/Form.js:49-51 | reading an entry gives the stored value, and an absent key reads as undefined |
| FormStore.EncodeLookup | src/Form.js:41-44 | the entries merged by a write are exactly the given attributes' keys, each holding its given value |
| FormStore.WriteFrame | src/Form.js:34-47 | after `setFieldState`, each written attribute reads back as written, every other attribute of the field is unchanged, and no key outside the written ones is added or changed |
| FormStore.WriteKeepsOtherFields | src/Form.js:34-47 | a write to one field never changes an entry of another field |
| FormStore.RegisterOverwrites | src/Form.js:84-91 | `register` nulls `value`, `message` and `valid` even when they were set, so it is not idempotent on a set value; `error_key` is left alone |
| FormStore.ValidityReadBack | src/Form.js:103-125 | after `setFieldValid`, `isFieldValid`, `getError` and `getErrorKey` return what was stored (the message is stored even when valid), and the value is unchanged |
| FormStore.AllValidByField | src/Form.js:151-159 | `isValid()` holds iff every field whose `valid` entry exists has a truthy one |
| FormStore.RegisteredUnvalidatedIsInvalid | src/Form.js:151-159 | a registered field that was never validated makes the form invalid |
| FormStore.AllValidIgnoresOtherEntries | src/Form.js:151-159 | writing a `value`, `message` or `error_key` entry never changes `isValid()` |
| FormStore.ValueNamesSpec | src/Form.js:167-171 | a name is captured iff its `value` key is present (for names without line terminators) |
| FormStore.ValueMapSpec | src/Form.js:166-175 | `values()` reports a name iff its `value` key is present and the name is not `__proto__` (whose assignment at line 173 reaches the inherited setter), and maps it to that entry |
| FormStore.ResetSpec | src/Form.js:61-82 | `reset(except)` nulls the four entries of every field that has a `value` entry and is not excepted, leaves excepted fields untouched, and changes no other key |
| FormStore.ValueNamesStep | src/Form.js:64-71 | a new key adds at most the name it decodes to the captured names |
| FormStore.ValuesStep | src/Form.js:168-174 | one iteration of the `values()` loop adds at most the name it decodes, and nothing for `__proto__` |
| FormStore.ResetStep | src/Form.js:64-80 | one iteration of the `reset` loop over a matching, non-excepted key adds that field's four null entries |
| FormStore.ResetSkip | src/Form.js:64-74 | a key that does not match, or that names an excepted field, adds nothing |
| FormStore.Form.constructor | src/Form.js:19-21 | the form starts with an empty state and no `onChange` calls |
| FormStore.Form.SetFieldState | src/Form.js:34-47 | the loop builds exactly the encoded entries, the new state is the old one merged with them, and `onChange` fires exactly once |
| FormStore.Form.GetFieldState | src/Form.js:49-51 | reads one entry of the field |
| FormStore.Form.GetFieldStates | src/Form.js:52-58 | with a list of attributes, returns an object holding exactly the listed attributes other than `__proto__`, each mapped to its entry; `__proto__` is an own key only when its entry is null and it is listed at least twice (`ProtoOwned`), since the first assignment empties the prototype chain |
| FormStore.Form.Reset | src/Form.js:61-82 | the loop produces `ResetState`, and `onChange` is not called |
| FormStore.Form.Register | src/Form.js:84-91 | writes null `value`, `message` and `valid` entries and notifies once |
| FormStore.Form.SetValue | src/Form.js:93-96 | `getValue(name)` afterwards returns the value that was set |
| FormStore.Form.GetValue | src/Form.js:98-101 | the field's `value` entry |
| FormStore.Form.IsFieldValid | src/Form.js:103-106 | the field's `valid` entry |
| FormStore.Form.GetError | src/Form.js:108-111 | the field's `message` entry |
| FormStore.Form.GetErrorKey | src/Form.js:113-116 | the field's `error_key` entry |
| FormStore.Form.SetFieldValid | src/Form.js:118-125 | writes `valid`, `message` and `error_key`, which the getters then return |
| FormStore.Form.IsValid | src/Form.js:151-159 | the loop's early return gives exactly `AllValid`; on a form that keeps its invariant, it holds iff every existing `valid` entry is truthy |
| FormStore.Form.Values | src/Form.js:161-176 | with an array, says whether every listed field's `valid` entry is truthy; otherwise the loop, assigning through `Assign`, builds exactly `ValueMap` |
| FormStore.Form.HandleSubmit | src/Form.js:142-149 | `onSubmit` is called iff (`submitOnInvalid` or `isValid()`) and it is set, and it receives `values()` |
| FieldController.RulesOf | src/Field.js:72-88 | every function-typed child gives its rule (its function and props) and every rule comes from such a child; when every child is one, the rules are the children position by position; when none is, there are none |
| FieldController.RulesOfSingle | src/Field.js:72-88 | a single child gives its rule or nothing; with `RulesOfAppend` this fixes the rules' order as the children's |
| FieldController.RulesOfAppend | src/Field.js:72-88 | rule extraction distributes over concatenation of the children |
| FieldController.RulesAsWritten | src/Field.js:72-88 | as written, a field without children throws (no rules) |
| FieldController.Rules | src/Field.js:72-88 | as intended, a field without children has no rules, and otherwise it agrees with the code as written |
| FieldController.RuleInput | src/Field.js:115 | a rule receives its own props with `value` replaced by the field's value |
| FieldController.ResultsFor | src/Field.js:114-115 | the results are those of each rule called on its input, in order |
| FieldController.Step | src/Field.js:114-127 | one iteration of the loop: a promise is set aside, any other result is normalised, may replace the message, and ends the loop when invalid |
| FieldController.Scan | src/Field.js:114-128 | the loop over all the results; `ScanReach`, `ScanAccumulates`, `StopsAtFirstSyncFailure`, `PromisesSetAside` and `MessageIsLastExamined` are proved about it |
| FieldController.Decide | src/Field.js:130-163 | after the loop: defer to the promises when there are some and nothing failed, otherwise finish with the loop's verdict and message; `SyncVerdictIsConjunction` is proved about it |
| FieldController.ScanReach | src/Field.js:114-128 | the scan goes just past the first synchronous failure, or to the end of the list when there is none |
| FieldController.ScanAccumulates | src/Field.js:114-128 | the scan has collected the promises and the last message of exactly the results it examined |
| FieldController.StopsAtFirstSyncFailure | src/Field.js:114-128 | once a synchronous result is invalid no later rule is called, and a promise never stops the loop |
| FieldController.PromisesSetAside | src/Field.js:117-120 | the promises met before the loop stops are all set aside, in order |
| FieldController.MessageIsLastExamined | src/Field.js:91-101 | the pending message is the `errorMessage` prop unless an examined object result has a `message`, in which case the last such message wins, even from a valid result |
| FieldController.SyncVerdictIsConjunction | src/Field.js:112-163 | with no promise results, the verdict is the conjunction of the normalised results, and an empty rule list is valid |
| FieldController.FirstRejection | src/Field.js:137 | for promises that have all settled, `Promise.all` reports the first rejection in list order, and none iff every promise resolved |
| FieldController.ResolvedValues | src/Field.js:137 | the resolved values, in the promises' order |
| FieldController.FirstInvalid | src/Field.js:138-140 | the index at which `every(isValid)` stops: every earlier result is valid and the result there is invalid, or the length when all are valid |
| FieldController.EveryValid | src/Field.js:137-140 | `results.every(isValid)` with the closure's message; `EverySpec` is proved about it |
| FieldController.AsyncVerdict | src/Field.js:136-147 | the verdict and message the promise chain hands to `setValid`; `AsyncVerdictSpec` is proved about it |
| FieldController.EverySpec | src/Field.js:137-140 | `every(isValid)` holds iff every result normalises to valid; the message is that of the last object with a `message` among the results examined, which are all of them, or those up to and including the first invalid one |
| FieldController.AsyncVerdictSpec | src/Field.js:136-147 | the async verdict holds iff every promise resolved to a valid result; when all resolved, the message is the last `message` among the results up to the first invalid one (or all of them); a rejection makes it false and supplies its message only when it has a `message` and a `valid` |
| FieldController.Field.constructor | src/Field.js:12-30 | the local state starts with null `_value`, `_valid` and `_message`, and an undefined `errorMessage` prop takes its default "Invalid data" |
| FieldController.Field.GetValue | src/Field.js:32-37 | reads the form's `value` entry when there is a form, and the local value otherwise |
| FieldController.Field.SetValue | src/Field.js:39-46 | writes through the form or locally; `getValue()` then returns the value that was set |
| FieldController.Field.SetValid | src/Field.js:48-56 | locally it stores the verdict, with the message nulled when valid; through the form it stores verdict and message whatever the verdict; `isValid()` returns the verdict |
| FieldController.Field.IsValid | src/Field.js:58-63 | the form's `valid` entry, or the local flag |
| FieldController.Field.Error | src/Field.js:65-70 | the form's `message` entry, or the local message |
| FieldController.Field.Validate | src/Field.js:90-163 | calls exactly the rules the scan examines; with no synchronous failure and some promise, marks the field as validating and hands back the batch with nothing else changed; otherwise clears the flag and records the scan's verdict and message |
| FieldController.Field.Settle | src/Field.js:136-155 | the verdict recorded after settlement is `AsyncVerdict`, with its message, and the validating flag is cleared |
| FieldController.ChildlessRulesThrow | src/Field.js:72-88 | a childless field: rule extraction as written throws, while the intended version yields no rules and a valid verdict |
| FieldController.InvalidStopsBeforeValid | test/FieldSpec.js:47-60 | an invalid rule before a valid one: only the first is called, and the verdict is invalid with the prop's message |
| FieldController.PromiseDoesNotStop | test/FieldSpec.js:62-75 | a promise resolving to false before a valid rule: both are called, and the settled batch is invalid |
| FieldController.RejectionMessages | test/FieldSpec.js:122-180 | a rejection with `valid` and `message` supplies the error; a thrown primitive or an error without `valid` keeps the prop's message |

## Left out

- `_show` is declared in the initial state of `src/Field.js` (line 28) but never read or written by it, so it is not modelled. Debounce, `_invalid_on`, `errorKey()`, `isProcessing()`, `handleChange` and `componentDidMount` are not in this version of `src/Field.js`; they are timer-driven. Some tests describe them, and those tests are not modelled.
- FieldController.Field.Validate: leaves `_valid` unchanged while promises are pending, as `src/Field.js` does. It does not null it as test/FieldSpec.js:92-104 expects.
- The field never calls `register` in this source. A field inside a form is only registered if the consumer registers it.
- Promise scheduling and interleaving of overlapping validations are not modelled. Each promise is modelled by its already-settled outcome. `Settle` is the continuation run once all of them have settled.
- FieldController.FirstRejection: picks the first rejection in list order. In the source `Promise.all` rejects with the rejection that happens first in time, which can be a later promise in the list; timing is not modelled.
- A child that is `null`, `undefined` or a boolean (for example `{cond && <Rule />}`) is handed by `React.Children.map` to the callback, and `rule.type` then throws at src/Field.js:75. `Child` has no such case, so this crash is not modelled.
- FieldController.Field.Validate: rules are total here; a rule that throws, including a class-component child that `rules()` keeps (`typeof` of a class is `"function"`, and calling it without `new` throws), makes `validate()` throw at src/Field.js:115 with nothing recorded. That is not modelled.
- FieldController.Field.Validate: rules have no side effects here. A rule that mutates its props or the field's value, or that calls back into the field or the form while `validate()` runs, is not modelled.
- FieldController.Field.Validate: follows the corrected `Rules`, so a childless field is recorded valid; in the source `validate()` throws for it (see Findings).
- FieldController.Field.Validate: requires that the results it examines be well formed (`WellFormedResult`). A null or undefined synchronous result makes the source throw a TypeError at `result.then`. That crash is excluded rather than modelled.
- FieldController.Field.Settle: requires, when no promise rejected, that `every(isValid)` never reaches a null result (`EveryWalksCleanly`): `"message" in null` throws and the chain then never records a verdict. That crash is excluded rather than modelled. Null results after the first invalid one, or in a batch with a rejection, are allowed, as the source never examines them.
- EqualRule.Equal: leaves out loose `==` between a string and a number or boolean. That comparison needs JavaScript's string-to-number parsing.
- LengthRule.Length: accepts only integer bounds. A truthy non-number `lessThan` or `greaterThan` would be coerced by `<` and `>`, and that coercion is not modelled.
- LengthRule.Length: measures length in characters, not in UTF-16 code units.
- Numbers are integers, and unbounded: NaN, fractions and infinities are not modelled, nor the loss of precision above 2^53.
- JsValues.ToJsString: writes every integer in plain digits, while `v + ""` switches to exponent form from magnitude 10^21 (`"1e+21"`), so `Length` of such a number differs.
- Objects and arrays as field values are not modelled.
- The `onChange` and `onSubmit` callbacks belong to the consumer. The form counts its `onChange` calls in `changes`. `HandleSubmit` returns the data it would pass to `onSubmit`. The event object and `preventDefault` are left out.
- State updates through `setState` are modelled as immediate assignments. React's batching of them is not modelled.
- The regular expressions are modelled with the end anchor fixing the lazy group. Names containing a line terminator are reported as unmatched, as `.` in JavaScript does not match line terminators.
- `src/rules/IsEmail.js` is not modelled, because it wraps an external library. Its shape is `compose`, which is modelled.
- The rendering of `Form`, `Field` and the widgets in `src/fields/` is not modelled, because it is React markup and PropTypes.
- The development-mode warning for a non-function child is console output and is not modelled.

## Findings

| source | as written | input that shows it | evidently intended | confidence | as-written member | corrected member |
|---|---|---|---|---|---|---|
| src/Field.js:72-88 | `React.Children.map(children, …)` returns `undefined` when `children` is absent, and `.filter` is then called on it | a `<Field name="x" />` with no children, then `validate()` | a field without rules is valid (no rules to fail) | not executed | FieldController.RulesAsWritten | FieldController.Rules |
