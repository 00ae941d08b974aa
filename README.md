# Pulses, design nodes and intention dispatch

A model, in Dafny, of the small JavaScript "intention space" exercises.

- **Pulses.** A pulse has three parts:
  - a `prompt`;
  - a `responses` array, which holds either one scalar (a *simple* pulse) or rows (a *structured* pulse). In a structured pulse, every header row starts with `"META"` and opens a section.
  - a `trivalence` tag (`Y`, `N`, `UN`).
- **Helpers.** The helper library classifies pulses, reads fields, builds key/value objects, splits a pulse into sections and validates it. Several trimmed copies of it exist, each with its own guards.
- **Design nodes.** These are pulse and signal transformers: a counter, a light switch, an email check, sold-out marking, dish selection, trivalence counting, form reflection and form validation.
- **Dispatch.** Two in-process registries deliver signals to receivers:
  - the channel-keyed `listen`/`emit` table;
  - the broadcast intention bus, with its stateful `Object_UserValidation` receiver and the `DN_ValidateEmail` producer.

## How the model is built

- **Cells.** A response cell is `Scalar(text)` or `Row(cells)`. A scalar read as a row is read like a JavaScript string, one element per character, as `Pulses.Cells` expresses. A Dafny character is a Unicode code point, whereas JavaScript's `length` and `s[i]` count UTF-16 code units; the two agree on text without characters above U+FFFF. The form validator's name check uses `JsRuntime.Utf16Length`, the true `length`.
- **JavaScript values.** A read can give `undefined`, `null` or a string; these are `JsValue` (`Undefined`, `Null`, `Str`).
- **Errors.**
  - A `throw` becomes a `Failure`.
  - In a trimmed copy, reading a property of `undefined` becomes `Failure(TypeError)` rather than a precondition.
- **`parseInt` and `String(n)`.** `JsRuntime` models these on integers. `parseInt` skips leading whitespace and reads an optional sign, an optional hex prefix and the longest digit prefix; it gives `None` for NaN.
- **Loops become methods.** Each method is proved equal to a specification function, and lemmas state what that function means:
  - `getFieldValues`, `toObject`, `toObjects`, `parseStructuredPulse` and `validatePulse`, with its two nested `forEach` loops;
  - `validateEntireSignal`;
  - the counter-history script.
- **Classes.** A class models each object whose fields the source updates in place:
  - the listener table (`Tunnel.Emitter`);
  - the intention bus (`Intentions.IntentionBus`);
  - `FormStateObject`, `FormValidatorDN` and `Object_UserValidation`.
- **Traces.** Every handler or subscriber call is recorded as a delivery with its nesting depth.
  - `emit` is proved equal to a depth-first trace function.
  - A fuel bound caps re-entrant nesting.
  - The emitter takes its handlers' behaviour as a `Callbacks` parameter; `Tunnel.Step` is the application's version.
  - The bus passes its one stateful receiver explicitly, and its method proves that receiver's final `capturedState`.
- **The form validator's two copies.** The trello-dishSelect validator reads inputs through the total `getSimpleValue` of `signal-utils.js`, which defaults to `""`. Trello_Task/ISEX1.3/design-nodes/formValidatorDN.js requires `../helpers/pulse-helpers`, which is not part of this model. It is taken to be the library's own `getSimpleValue`, which throws on anything that is not a simple pulse.

## Model

| member | source | states |
|---|---|---|
| JsRuntime.IndexOf | trello-dishSelect/ISEX1.1/pulse-helpers.js:88 | -1 exactly when the value is absent; otherwise the first position holding it |
| JsRuntime.LastIndexOf | trello-dishSelect/ISEX1.1/pulse-helpers.js:175-177 | -1 exactly when absent; otherwise the last position holding it (the write that survives a `forEach` over repeated keys) |
| JsRuntime.CellRead | trello-dishSelect/ISEX1.1/pulse-helpers.js:94 | an array read is a string inside the bounds and `undefined` outside them, never `null` |
| JsRuntime.At | trello-dishSelect/ISEX1.3/tunnel/signal-utils.js:6 | an optional read is present exactly inside the bounds, and then is the element |
| JsRuntime.CodeUnits | trello-dishSelect/ISEX1.3/design-nodes/FormValidatorDN.js:16 | one UTF-16 code unit for a character up to U+FFFF, two (a surrogate pair) above it |
| JsRuntime.Utf16Length | trello-dishSelect/ISEX1.3/design-nodes/FormValidatorDN.js:16 | a string's `length`: between one and two units per character, exactly one each when no character lies above U+FFFF, more than the character count otherwise |
| JsRuntime.BoolString | trello-dishSelect/ISEX1.3/design-nodes/FormValidatorDN.js:24 | `String(b)` is "true" or "false" according to b |
| JsRuntime.NatToString | ANnswers/counter-history.js:16 | a non-empty run of decimal digits, with no leading zero unless the number is 0 |
| JsRuntime.IntToString | ANnswers/counter-history.js:31 | a minus sign exactly for negative numbers, followed by the digits of the magnitude |
| JsRuntime.TrimStart | ANnswers/counter-history.js:12 | drops exactly the leading whitespace: every dropped character is whitespace and what remains does not start with any |
| JsRuntime.DigitPrefix | ANnswers/counter-history.js:12 | the longest prefix of digits in the radix: every character is a digit and the next one is not |
| JsRuntime.ParseDigits | ANnswers/counter-history.js:12 | NaN exactly when there is no leading digit |
| JsRuntime.DigitsValueOfNatToString | ANnswers/counter-history.js:12-16 | reading back the decimal digits of n gives n |
| JsRuntime.DigitPrefixOfDigits | ANnswers/counter-history.js:12 | an all-digit string is its own longest digit prefix |
| JsRuntime.ParseIntOfSignedNumeral | trello-dishSelect/ISEX1.3/design-nodes/FormValidatorDN.js:14 | `parseInt` of an optional minus and a digit string is the signed value of the digits, for any radix argument |
| JsRuntime.ParseIntOfIntToString | ANnswers/counter-history.js:12-16 | `parseInt(String(n), 10)` is n for every integer |
| Pulses.Cells | trello-dishSelect/ISEX1.1/pulse-helpers.js:139 | a row reads as its cells; a scalar reads as its characters, one per index |
| Pulses.ClassificationExclusive | trello-dishSelect/ISEX1.1/pulse-helpers.js:15-34 | no pulse is both simple and structured, and an empty response list is neither |
| Pulses.Fields | trello-dishSelect/ISEX1.1/pulse-helpers.js:171 | the field names are the header row without its leading "META" |
| Pulses.GetSimpleValue | trello-dishSelect/ISEX1.1/pulse-helpers.js:46-51 | succeeds exactly on simple pulses, whose responses are then the one returned scalar; otherwise the not-simple error |
| Pulses.GetFieldValue | trello-dishSelect/ISEX1.1/pulse-helpers.js:71-95 | the not-structured error exactly on unstructured pulses; `null` exactly when there is no data row, the name is "META" or the name is not a field; otherwise the first data row's cell under the field's first header position |
| PulseTables.MetaIndex | trello-dishSelect/ISEX1.1/pulse-helpers.js:131-137 | the position of the first META row: no row before it is one, and it is one unless it is the end |
| PulseTables.FirstSectionRows | trello-dishSelect/ISEX1.1/pulse-helpers.js:131-140 | the rows after the header, up to the next META row or the end, none of them a META row |
| PulseTables.FirstSectionEnd | trello-dishSelect/ISEX1.1/pulse-helpers.js:131-137 | a walk from row 1 that stops at a META row or at the end covers exactly the first section |
| PulseTables.FirstSectionColumn | trello-dishSelect/ISEX1.1/pulse-helpers.js:128-142 | one value per first-section row, each that row's read at the column |
| PulseTables.GetFieldValues | trello-dishSelect/ISEX1.1/pulse-helpers.js:116-143 | the not-structured error exactly on unstructured pulses; `[]` for "META" or an unknown field; otherwise one read per first-section row, in row order |
| PulseTables.FirstFieldValue | trello-dishSelect/ISEX1.1/pulse-helpers.js:116-143 | when the first data row is not a header, getFieldValue is the first element of getFieldValues |
| PulseTables.RowObjectMeaning | trello-dishSelect/ISEX1.1/pulse-helpers.js:174-177 | the object's keys are exactly the field names, and each maps to the data cell at its last position (a repeated name keeps its last write) |
| PulseTables.RowObjectOfDistinctFields | trello-dishSelect/ISEX1.1/pulse-helpers.js:174-177 | with distinct field names, field i maps to data cell i |
| PulseTables.RowObjectSnoc | trello-dishSelect/ISEX1.1/pulse-helpers.js:175-177 | one more `forEach` step adds or overwrites that one key |
| PulseTables.FillObject | trello-dishSelect/ISEX1.1/pulse-helpers.js:174-177 | the `forEach` fill yields the row object of the fields and data |
| PulseTables.ToObject | trello-dishSelect/ISEX1.1/pulse-helpers.js:162-180 | the not-structured error exactly on unstructured pulses; `{}` without a data row; otherwise the row object of the fields and the first data row |
| PulseTables.ToObjects | trello-dishSelect/ISEX1.1/pulse-helpers.js:203-229 | the not-structured error exactly on unstructured pulses; otherwise one row object per first-section row, in order, the first equal to toObject's |
| PulseTables.ParseStructuredPulse | trello-dishSelect/ISEX1.1/pulse-helpers.js:253-283 | the not-structured error exactly on unstructured pulses; otherwise the sections of the responses |
| PulseTables.Render | trello-dishSelect/ISEX1.1/pulse-helpers.js:267-273 | a section is laid out as one META row followed by its data rows |
| PulseTables.FlattenSectionsFrom | trello-dishSelect/ISEX1.1/pulse-helpers.js:261-280 | the walk loses no row: its sections laid out again give the open section followed by the remaining rows |
| PulseTables.SectionsRoundTrip | trello-dishSelect/ISEX1.1/pulse-helpers.js:253-283 | laying the sections of a structured pulse out again gives back its responses |
| PulseTables.SectionsFromCount | trello-dishSelect/ISEX1.1/pulse-helpers.js:261-280 | the walk yields one section per META row, plus the open one |
| PulseTables.SectionsCount | trello-dishSelect/ISEX1.1/pulse-helpers.js:253-283 | there are exactly as many sections as META rows |
| PulseTables.SectionsFromHead | trello-dishSelect/ISEX1.1/pulse-helpers.js:271-274 | the open section collects the rows up to the next META row |
| PulseTables.FirstSection | trello-dishSelect/ISEX1.1/pulse-helpers.js:253-283 | the first section has the header's fields and the rows getFieldValues walks |
| PulseTables.SectionsFromWithoutMeta | trello-dishSelect/ISEX1.1/pulse-helpers.js:271-274 | rows without a header all go into the open section |
| PulseTables.RowErrorsSound | trello-dishSelect/ISEX1.1/pulse-helpers.js:321-327 | every arity error reported names a row whose length differs from the field count, with both numbers |
| PulseTables.RowErrorsComplete | trello-dishSelect/ISEX1.1/pulse-helpers.js:321-327 | every row whose length differs from the field count is reported |
| PulseTables.RowErrorsNone | trello-dishSelect/ISEX1.1/pulse-helpers.js:321-327 | rows of the right length produce no error |
| PulseTables.RowErrorsOrdered | trello-dishSelect/ISEX1.1/pulse-helpers.js:321-327 | a section's errors come in strictly increasing row order |
| PulseTables.SectionErrorsSound | trello-dishSelect/ISEX1.1/pulse-helpers.js:318-329 | every arity error reported matches a real mismatch in the named section and row |
| PulseTables.SectionErrorsComplete | trello-dishSelect/ISEX1.1/pulse-helpers.js:318-329 | every mismatched row of every section is reported |
| PulseTables.SectionErrorsOrdered | trello-dishSelect/ISEX1.1/pulse-helpers.js:318-329 | errors come by section, then by row, as the nested loops visit them |
| PulseTables.CheckSection | trello-dishSelect/ISEX1.1/pulse-helpers.js:321-327 | the inner loop reports exactly the section's arity errors, in order |
| PulseTables.CheckSections | trello-dishSelect/ISEX1.1/pulse-helpers.js:318-329 | the outer loop reports exactly every section's arity errors, in order |
| PulseTables.ValidatePulse | trello-dishSelect/ISEX1.1/pulse-helpers.js:298-336 | never fails; reports a missing prompt, then a bad trivalence, then, for a structured pulse, every arity error; valid exactly when nothing is reported |
| PulseTables.ArityErrorsFreeIff | trello-dishSelect/ISEX1.1/pulse-helpers.js:315-330 | a structured pulse has no arity error exactly when every data row has its section's field count |
| PulseTables.SectionsOfTable | trello-dishSelect/ISEX1.1/pulse-helpers.js:253-283 | a header followed by non-header rows is a single section |
| PulseTables.WellFormedTableValidates | trello-dishSelect/ISEX1.1/pulse-helpers.js:298-336 | a prompted, properly tagged single table whose rows all have the header's field count is valid |
| HelperCopies.UnguardedStructureAgrees | Trello_Task/ISEX1.3/challenge-1/helpers/pulse-helpers.js:6-9 | dropping the `length > 0` guard does not change the structured classification |
| HelperCopies.UnguardedClassificationExclusive | Pulse_practice/pulse_one.js:36-44 | the unguarded copies still never call a pulse both simple and structured |
| HelperCopies.GetFieldValueNoRowGuard | PulseAnswers/mypulse.js:16-25 | the not-structured error on unstructured pulses; a TypeError exactly for a field found with no data row; `null` for "META" or an absent field; wherever it succeeds, or a data row exists, it agrees with the library's getFieldValue; Pulse_practice/my-first-pulses.js behaves the same |
| HelperCopies.GetFieldValueChallenge | Trello_Task/ISEX1.3/challenge-1/helpers/pulse-helpers.js:18-32 | the `-1 \|\| 0` guard behaves exactly as the `<= 0` guard |
| HelperCopies.GetSimpleValueUnchecked | Pulse_practice/pulse_one.js:46-48 | the unchecked read returns the first response whenever there is one, and on simple pulses agrees with the checked getSimpleValue |
| HelperCopies.ToObjectNoRowGuard | PulseAnswers/mypulse.js:26-37 | the not-structured error on unstructured pulses; a TypeError exactly when there are fields and no data row; otherwise the row object of the fields and the first data row, equal to the library's toObject when a data row exists; Pulse_practice/my-first-pulses.js behaves the same |
| HelperCopies.DropFirst | Pulse_practice/pulse_one.js:51 | `slice(1)` drops the first element, and an empty list stays empty |
| HelperCopies.ToObjectUnchecked | Pulse_practice/pulse_one.js:50-60 | a TypeError exactly when there is no first response, the first response is a scalar (a string has no `forEach`), or there are fields and no data row; otherwise the row object of the sliced header; on a structured pulse with a data row, equal to the library's toObject |
| Fixtures.DoorLockReads | Pulse_practice/my-first-pulses.js:54-58 | the door lock is simple, not structured, and reads "locked" |
| Fixtures.BookInfoReads | Pulse_practice/my-first-pulses.js:61-80 | the book is structured, not simple, and its title and author read back |
| Fixtures.BookInfoObject | Pulse_practice/my-first-pulses.js:81 | toObject of the book has exactly its four fields with their values |
| Fixtures.BookInfoValidates | PulseExercise/example-verify-test.js:201-257 | the book has one value per field and passes validatePulse |
| Fixtures.UserLoggedInReads | Pulse_practice/pulse_one.js:66-67 | the login pulse is simple and the unchecked read gives "yes" |
| Fixtures.DishSelectedObject | Pulse_practice/pulse_one.js:69-71 | the unchecked toObject of the dish has exactly name, price and chef |
| Transforms.Counted | ANnswers/counter-history.js:14-18 | the new pulse keeps prompt and trivalence and is a simple pulse reading the new text |
| Transforms.IncrementCounter | ANnswers/counter-history.js:7-19 | a non-simple pulse fails; otherwise the count is text of parseInt plus one, with prompt and trivalence kept |
| Transforms.DecrementCounter | ANnswers/counter-history.js:22-34 | a non-simple pulse fails; otherwise the count is text of parseInt minus one, with prompt and trivalence kept |
| Transforms.CounterOfNumeral | ANnswers/counter-history.js:7-34 | on a counter holding `String(n)`, increment holds `String(n + 1)` and decrement `String(n - 1)` |
| Transforms.CounterRoundTrip | ANnswers/counter-history.js:7-34 | decrement after increment gives back the counter |
| Transforms.CounterOfNonNumber | ANnswers/counter-history.js:12-16 | any count that parseInt reads as NaN becomes "NaN" after increment and after decrement |
| Transforms.EmptyCountIsNaN | ANnswers/counter-history.js:12 | the empty count has no leading digit, so parseInt reads it as NaN |
| Transforms.Increment | ANnswers/counter-history.js:54 | reassigning `counter` in the script advances the counter by one |
| Transforms.Decrement | ANnswers/counter-history.js:70 | reassigning `counter` in the script moves the counter back by one |
| Transforms.CounterHistory | ANnswers/counter-history.js:38-75 | four entries T0 to T3 with their actions and the counters start, start+1, start+2, start+1 |
| Transforms.CounterHistoryFromZero | ANnswers/counter-history.js:40-75 | from "0" the history reads "0", "1", "2", "1" |
| Transforms.ToggleSwitch | Trello_Task/ISEX1.2/toggle-switch.js:5-14 | non-simple pulses fail; otherwise prompt and trivalence are kept and the state becomes "off" exactly when it was "on", "on" otherwise |
| Transforms.ToggleTwice | Trello_Task/ISEX1.2/toggle-switch.js:5-14 | toggling an on/off switch twice gives it back |
| Transforms.ToggleSwitchScript | Trello_Task/ISEX1.2/toggle-switch.js:18-28 | off toggles to on and back to off |
| Transforms.ValidateEmail | Trello_Task/ISEX1.2/validate-email.js:4-21 | non-simple pulses fail; otherwise the prompt is kept and the verdict is "true"/"Y" exactly when the email has both "@" and "." |
| Transforms.ValidateEmailOfText | Trello_Task/ISEX1.2/validate-email.js:13-20 | for any email text the verdict pulse is determined by the two `includes` checks |
| Transforms.ValidateEmailScript | Trello_Task/ISEX1.2/validate-email.js:24-32 | alice@example.com is accepted with "true" and "Y" |
| Transforms.ValidateEmailScriptRejects | Trello_Task/ISEX1.2/validate-email.js:34-42 | not-an-email is rejected with "false" and "N" |
| Transforms.MarkDishSoldOut | Trello_Task/ISEX1.2/mark-dish-sold-out.js:4-35 | the not-structured error exactly on unstructured pulses, the not-found error exactly without an availability column, a TypeError exactly without a data row; otherwise the same header and a copy of the first data row with only the availability cell set to "sold_out" (appended when the column lies just past the row's end), and trivalence "N"; ANnswers/markdish_soldout.js behaves the same |
| Transforms.SoldOutReadsBack | Trello_Task/ISEX1.2/mark-dish-sold-out.js:47-52 | after marking, availability reads "sold_out" |
| Transforms.SoldOutKeepsOtherFields | Trello_Task/ISEX1.2/mark-dish-sold-out.js:26-27 | after marking, every other field reads as before |
| Transforms.SoldOutAppends | Trello_Task/ISEX1.2/mark-dish-sold-out.js:23-27 | an availability column one past the end of the data row appends "sold_out" to the copied row |
| Transforms.BiryaniSoldOut | Trello_Task/ISEX1.2/mark-dish-sold-out.js:38-54 | the in-stock Biryani becomes sold out with trivalence "N" |
| Transforms.SelectDishWithDetails | trello-dishSelect/ISEX1.2/selectdish-design-node.js:3-20 | fails exactly on a missing pulse or one not prompted "dish_selected"; otherwise a dish_selected pulse tagged "Y" with the dishId/dishName/price header and the one data row `[dishId, dishName, String(price)]` |
| Transforms.ColumnRead | trello-dishSelect/ISEX1.1/pulse-helpers.js:88-94 | in a one-row table, a field's first header position reads the matching data cell |
| Transforms.DishRowReads | trello-dishSelect/ISEX1.2/selectdish-history.js:43-46 | the selection's three fields read back their values |
| Transforms.SelectedDishReads | trello-dishSelect/ISEX1.2/selectdish-design-node.js:8-19 | the selected pulse reads back the id, name and price text it was built from |
| Transforms.SelectionIgnoresPulse | trello-dishSelect/ISEX1.2/selectdish-design-node.js:8-19 | the result depends only on the details, not on the old pulse's contents |
| Transforms.SelectionValidates | trello-dishSelect/ISEX1.2/selectdish-design-node.js:8-19 | the built table has no arity errors |
| Transforms.SelectDishHistory | trello-dishSelect/ISEX1.2/selectdish-history.js:11-52 | nothing selected at T0 reads `null`; at T1 the dish name reads back |
| Signals.FirstIndex | trello-dishSelect/ISEX1.3/tunnel/signal-utils.js:2 | the first position with the prompt, or the end when there is none |
| Signals.GetPulseFromSignal | trello-dishSelect/ISEX1.3/tunnel/signal-utils.js:1-3 | absent exactly when no pulse has the prompt; otherwise the first pulse that has it |
| Signals.LookupsOfDistinctPrompts | trello-dishSelect/ISEX1.3/tunnel/signal-utils.js:1-3 | lookups of different prompts find different pulses |
| Signals.FirstResponseOrEmpty | trello-dishSelect/ISEX1.3/tunnel/signal-utils.js:5-7 | the first response when the pulse exists and has one, the empty string otherwise |
| Signals.FirstResponseOfSimple | trello-dishSelect/ISEX1.3/tunnel/signal-utils.js:5-7 | on a simple pulse the total read agrees with the checked getSimpleValue |
| Signals.CountTrivalence | ISEX1.3/ValidateSignal/validate_Entire_Signal.js:5-8 | a count never exceeds the number of pulses |
| Signals.CountAllIff | ISEX1.3/ValidateSignal/validate_Entire_Signal.js:14 | the count equals the pulse count exactly when every pulse has the tag |
| Signals.CountNoneIff | ISEX1.3/ValidateSignal/validate_Entire_Signal.js:5-8 | the count is zero exactly when no pulse has the tag |
| Signals.CountsBounded | ISEX1.3/ValidateSignal/validate_Entire_Signal.js:5-8 | valid plus invalid never exceeds the total |
| Signals.CountAppend | ISEX1.3/ValidateSignal/validate_Entire_Signal.js:5-8 | counting is additive over concatenation |
| Signals.ValidateEntireSignal | ISEX1.3/ValidateSignal/validate_Entire_Signal.js:1-16 | total, the Y and N counts, their sum bounded by the total, and allValid exactly when every pulse is "Y" |
| Signals.Reflect | trello-dishSelect/ISEX1.3/object/FormStateObject.js:17-25 | the original pulses unchanged, then exactly the three placeholders; timestamp kept |
| Signals.ReflectCounts | trello-dishSelect/ISEX1.3/object/FormStateObject.js:17-25 | reflection keeps the Y and N counts, adds three UN, and leaves the reflected signal not all-valid |
| Signals.PlaceholderCounts | trello-dishSelect/ISEX1.3/object/FormStateObject.js:21-23 | the placeholders are three UN pulses and no Y or N |
| Signals.Verdict | trello-dishSelect/ISEX1.3/design-nodes/FormValidatorDN.js:23-30 | a verdict keeps the prompt and holds `String(v)` with "Y" or "N" |
| Signals.Rewrite | trello-dishSelect/ISEX1.3/design-nodes/FormValidatorDN.js:20-34 | same length, prompts and timestamp; non-verdict pulses unchanged; each `*_valid` pulse carries its own check's verdict |
| Signals.RewriteWithoutVerdictPulses | trello-dishSelect/ISEX1.3/design-nodes/FormValidatorDN.js:22-33 | a signal without `*_valid` pulses is unchanged |
| Signals.RewriteIdempotent | trello-dishSelect/ISEX1.3/design-nodes/FormValidatorDN.js:22-33 | rewriting twice with the same verdicts is rewriting once |
| Signals.CellText | trello-dishSelect/ISEX1.3/design-nodes/FormValidatorDN.js:12-14 | a scalar's text is itself |
| Signals.ValidateForm | trello-dishSelect/ISEX1.3/design-nodes/FormValidatorDN.js:9-43 | same length and timestamp; every pulse but the three `*_valid` ones kept; name_valid, email_valid and age_valid hold the name-length (UTF-16 code units, as `length`), "@" and age-at-least-18 checks on the first pulse of each input prompt (the empty string when absent) |
| Signals.SurrogatePairNameOk | trello-dishSelect/ISEX1.3/design-nodes/FormValidatorDN.js:16 | a name of one character above U+FFFF has `length` 2 and passes the name check |
| Signals.MissingInputsAreInvalid | trello-dishSelect/ISEX1.3/design-nodes/FormValidatorDN.js:12-17 | missing name and email inputs make their verdicts "false"/"N" |
| Signals.ValidateFormChecked | Trello_Task/ISEX1.3/design-nodes/formValidatorDN.js:5-30 | fails exactly when an input is missing (TypeError) or not simple |
| Signals.CheckedRead | Trello_Task/ISEX1.3/design-nodes/formValidatorDN.js:8-13 | succeeds exactly on a present simple pulse, whose one response it returns; a missing pulse is a TypeError |
| Signals.ValidatorsAgree | Trello_Task/ISEX1.3/design-nodes/formValidatorDN.js:11-26 | wherever the checked validator succeeds, it agrees with the total one |
| Signals.FrankInputs | ISEX1.3/Signal_Journey/index.js:7-14 | the reflected form still finds Frank's three inputs |
| Signals.FrankAge | ISEX1.3/Signal_Journey/index.js:11 | "25" parses to 25 |
| Signals.RewriteOfReflected | trello-dishSelect/ISEX1.3/object/FormStateObject.js:17-25 | validating a reflected signal without verdicts gives the original pulses followed by the three verdicts |
| Signals.ValidateFormOfSimpleInputs | Trello_Task/ISEX1.3/design-nodes/formValidatorDN.js:8-26 | with three simple inputs both validators give the rewrite by their checks |
| Signals.FrankInputsOk | ISEX1.3/Signal_Journey/index.js:9-11 | Frank's name, email and age pass their checks |
| Signals.FrankChecks | ISEX1.3/Signal_Journey/index.js:18-22 | the reflected form validates with three true verdicts |
| Signals.FrankValidates | ISEX1.3/Signal_Journey/index.js:18-22 | the validated signal is Frank's form followed by three "true"/"Y" verdicts |
| Signals.FrankHasNoVerdicts | ISEX1.3/Signal_Journey/index.js:7-14 | Frank's submitted form has no `*_valid` pulse |
| Tunnel.HandlersOf | trello-dishSelect/ISEX1.3/tunnel/emitter.js:20 | a channel nobody listens on has no handlers |
| Tunnel.Register | trello-dishSelect/ISEX1.3/tunnel/emitter.js:10-15 | the channel's list gains the handler at its end; every other channel's list is unchanged |
| Tunnel.NestedSilent | trello-dishSelect/ISEX1.3/tunnel/emitter.js:22 | a handler whose emit reaches no listener adds no nested calls |
| Tunnel.DeliverAllStep | trello-dishSelect/ISEX1.3/tunnel/emitter.js:22 | the `forEach` proceeds one handler at a time: its call and that call's nested calls, then the rest |
| Tunnel.AtDepthAppend | trello-dishSelect/ISEX1.3/tunnel/emitter.js:17-23 | depth filtering distributes over concatenation |
| Tunnel.AtDepthOfDeeper | trello-dishSelect/ISEX1.3/tunnel/emitter.js:17-23 | a trace of deeper calls has nothing at the given depth |
| Tunnel.DepthsWithinAppend | trello-dishSelect/ISEX1.3/tunnel/emitter.js:17-23 | depth bounds are kept by concatenation |
| Tunnel.DeliverAllDepths | trello-dishSelect/ISEX1.3/tunnel/emitter.js:22 | every call of an emit lies between its depth and its depth plus the fuel |
| Tunnel.NestedDepths | trello-dishSelect/ISEX1.3/tunnel/emitter.js:22 | every call caused by a handler's emit is strictly deeper |
| Tunnel.Announced | trello-dishSelect/ISEX1.3/tunnel/emitter.js:22 | one call per handler, in list order, all on the same event |
| Tunnel.DeliverAllTopLevel | trello-dishSelect/ISEX1.3/tunnel/emitter.js:22 | the calls at an emit's own depth are exactly its handlers in order, each once, with the same signal |
| Tunnel.DispatchTopLevel | trello-dishSelect/ISEX1.3/tunnel/emitter.js:17-23 | the outer emit calls every listener of the channel once, in registration order, with the same signal |
| Tunnel.DispatchDepths | trello-dishSelect/ISEX1.3/tunnel/emitter.js:17-23 | no call is nested deeper than the fuel |
| Tunnel.Emitter.constructor | trello-dishSelect/ISEX1.3/tunnel/emitter.js:8 | the table starts empty |
| Tunnel.Emitter.Listen | trello-dishSelect/ISEX1.3/tunnel/emitter.js:10-15 | the new table is the registration of the handler on the channel |
| Tunnel.Emitter.Emit | trello-dishSelect/ISEX1.3/tunnel/emitter.js:17-23 | the calls made are the depth-first dispatch trace; a channel without listeners calls nothing; the table is not modified |
| Tunnel.Emitter.EmitAt | trello-dishSelect/ISEX1.3/tunnel/emitter.js:20-22 | the loop over the handlers yields the dispatch trace at that depth |
| Tunnel.Emitter.Call | trello-dishSelect/ISEX1.3/tunnel/emitter.js:22 | one call, followed by what its own emit causes |
| FormNodes.FormStateObject.constructor | trello-dishSelect/ISEX1.3/object/FormStateObject.js:4-7 | nothing persisted; receive registered at the end of INT_SUBMIT_FORM's list |
| FormNodes.FormStateObject.Unregistered | Trello_Task/ISEX1.3/objects/formStateObject.js:4-6 | nothing persisted, nothing registered |
| FormNodes.FormStateObject.Receive | trello-dishSelect/ISEX1.3/object/FormStateObject.js:9-28 | the signal is persisted; the one emit is the reflected signal on INT_VALIDATE_FORM; the copy in Trello_Task/ISEX1.3/objects/formStateObject.js does the same and returns the reflected signal |
| FormNodes.FormValidatorDN.constructor | trello-dishSelect/ISEX1.3/design-nodes/FormValidatorDN.js:5-7 | process registered at the end of INT_SUBMIT_FORM's list |
| FormNodes.FormValidatorDN.Process | trello-dishSelect/ISEX1.3/design-nodes/FormValidatorDN.js:9-43 | the one emit is `ValidateForm(signal)` on INT_VALIDATION_COMPLETE: as long as the input, same timestamp, only the three `*_valid` pulses replaced by their verdicts |
| FormNodes.CheckedFormValidatorDN.Process | Trello_Task/ISEX1.3/design-nodes/formValidatorDN.js:5-30 | returns the checked validation, which on success equals the total validator's result |
| FormNodes.WiredListeners | trello-dishSelect/ISEX1.3/index.js:5-6 | after the two constructors, INT_SUBMIT_FORM lists receive then process, and no other channel has listeners |
| FormNodes.SubmitFormTrace | trello-dishSelect/ISEX1.3/index.js:5-9 | a submit calls receive, then process, both with the submitted signal, and nothing else |
| FormNodes.TwoSilentHandlers | trello-dishSelect/ISEX1.3/tunnel/emitter.js:22 | two handlers whose emits reach no listener give exactly their two calls |
| FormNodes.SubmitFormWiring | trello-dishSelect/ISEX1.3/index.js:5-9 | building the two receivers and submitting calls receive before process on the submitted signal |
| FormNodes.ValidatorSeesUnreflectedForm | trello-dishSelect/ISEX1.3/index.js:5-6 | process, listening on INT_SUBMIT_FORM, sees the unreflected form and leaves one without `*_valid` pulses unchanged |
| FormNodes.FrankJourney | ISEX1.3/Signal_Journey/index.js:18-22 | the object keeps Frank's form and the validator returns it with three "true"/"Y" verdicts |
| Intentions.Forward | ISEX2/Objects/Object_UserValidation.js:18-23 | an intention is forwarded exactly when its id is accepted, as INT_CREATE_USER with the same signal and the object's name as source; Trello_Task/ISEX2/objects/Object_UserValidation.js behaves the same |
| Intentions.ForwardOnce | ISEX2/Objects/Object_UserValidation.js:3-6 | a forwarded intention is not forwarded again |
| Intentions.Reaction | ISEX2/index.js:9-18 | the object's subscription forwards; the account guard emits nothing |
| Intentions.DeliverEachStep | ISEX2/intentions/intentionBus.js:9 | the `forEach` proceeds one subscriber at a time: its call and that call's nested calls, then the rest |
| Intentions.EmitLoopStep | ISEX2/intentions/intentionBus.js:9 | one loop step keeps both the trace invariant and the receiver's state invariant |
| Intentions.AtDepthAppend | ISEX2/intentions/intentionBus.js:8-10 | depth filtering distributes over concatenation |
| Intentions.AtDepthOfDeeper | ISEX2/intentions/intentionBus.js:8-10 | a trace of deeper calls has nothing at the given depth |
| Intentions.DeeperAppend | ISEX2/intentions/intentionBus.js:8-10 | depth bounds are kept by concatenation |
| Intentions.DeliverEachDepths | ISEX2/intentions/intentionBus.js:9 | every call of a nested emit is below its caller's depth |
| Intentions.ReemittedDepths | ISEX2/intentions/intentionBus.js:9 | every call caused by a subscriber's emit is strictly deeper |
| Intentions.Announced | ISEX2/intentions/intentionBus.js:9 | one call per subscriber, in order, all with the same intention |
| Intentions.DeliverEachTopLevel | ISEX2/intentions/intentionBus.js:9 | the calls at an emit's own depth are exactly its subscribers in order with the same intention |
| Intentions.BroadcastTopLevel | ISEX2/intentions/intentionBus.js:8-10 | the outer emit calls every subscriber once, in subscription order, with the same intention, whatever its id; Trello_Task/ISEX2/intentions/intentionBus.js behaves the same |
| Intentions.Capture | ISEX2/Objects/Object_UserValidation.js:10-16 | an accepted intention delivered to the object overwrites the capture with its signal and source; any other call leaves it |
| Intentions.CaptureAfterAppend | ISEX2/Objects/Object_UserValidation.js:12-16 | the capture after a trace is the capture after its parts, in order |
| Intentions.AccountCreations | ISEX2/index.js:14-18 | there are never more account creations than calls |
| Intentions.ObjectUserValidation.constructor | ISEX2/Objects/Object_UserValidation.js:7 | nothing captured |
| Intentions.ObjectUserValidation.Receive | ISEX2/Objects/Object_UserValidation.js:9-24 | an id outside accepts changes nothing and emits nothing; an accepted one captures signal and source and emits the forwarded intention once; Trello_Task/ISEX2/objects/Object_UserValidation.js behaves the same |
| Intentions.IntentionBus.constructor | ISEX2/intentions/intentionBus.js:1-2 | every bus starts with its own empty list |
| Intentions.IntentionBus.Subscribe | ISEX2/intentions/intentionBus.js:5-7 | the subscriber is appended at the end; Trello_Task/ISEX2/intentions/intentionBus.js behaves the same |
| Intentions.IntentionBus.Emit | ISEX2/intentions/intentionBus.js:8-10 | the calls are the depth-first broadcast trace, the list is not modified, and the receiver ends in the state the calls leave |
| Intentions.IntentionBus.EmitAt | ISEX2/intentions/intentionBus.js:9 | the loop over subscribers yields the broadcast at that depth and the matching receiver state |
| Intentions.IntentionBus.Call | ISEX2/index.js:9-11 | one subscriber call, then the nested broadcast of what it emits, with the receiver state it leaves |
| Intentions.ValidateEmailIntention | ISEX2/DesignNode/ValidateEmail.js:2-16 | one INT_EMAIL_VALIDATED intention from DN_ValidateEmail, whose signal is the email and `String(contains "@")`, both tagged "N"; Trello_Task/ISEX2/design-nodes/DN_ValidateEmail.js behaves the same |
| Intentions.EmailRulesDiffer | ISEX2/DesignNode/ValidateEmail.js:3 | "a@b" is valid for the bus design node and invalid for validate-email.js |
| Intentions.EmailFlowBroadcast | ISEX2/index.js:9-20 | the flow is depth first: object on VALIDATED, object on CREATE_USER, guard on CREATE_USER, guard on VALIDATED |
| Intentions.EmailFlowOutcome | ISEX2/Objects/Object_UserValidation.js:12-16 | on that trace the object captures the first intention and DN_CreateAccount is reached once |
| Intentions.EmailFlow | Trello_Task/ISEX2/index.js:9-21 | the wired flow gives that trace, captures DN_ValidateEmail's signal, and creates one account |
| Intentions.TwoBuses | Trello_Task/ISEX2/intentions/intentionBus.js:1-3 | two buses have independent lists |

## Left out

- Console output, the DOM (trello-dishSelect/ISEX1.1/pulse-dishSelect.js, FormSubmit.js) and the Jest harness: they print or render and compute nothing the model needs.
- Wall-clock readings: `Date.now()` and `new Date().toISOString()`. Intentions and `capturedState` have no time fields; a signal's timestamp is an optional value that is carried through unchanged.
- Floating point: Trello_Task/ISEX1.3/challenge-1/calculations/calculate-total.js and its `parseFloat`/`toFixed` arithmetic.
- JsRuntime.ParseInt: treats numbers as unbounded integers, so IEEE-754 rounding of very long numerals is not modelled.
- Exceptions thrown by a handler or subscriber in the middle of `emit`: the source does not guard them.
- Tunnel.Emitter.Emit: handlers are the two callbacks the application registers, given as tags. Their emitted events come from the `Callbacks` parameter, and the trace does not carry out `FormStateObject.receive`'s persistence; `FormNodes.FormStateObject.Receive` models that separately.
- Tunnel.Emitter.Emit and Intentions.IntentionBus.Emit: a fuel bound caps re-entrant nesting. With too little fuel, calls deeper than the bound are cut off; the source would recurse without limit on a cyclic wiring.
- Intentions.IntentionBus.Emit: the stateful receiver is passed explicitly, so only the one `Object_UserValidation` instance of the wiring is modelled.
- Transforms.MarkDishSoldOut: requires the availability column to lie within the first data row or just past its end. An availability index greater than the row's length makes JavaScript leave holes in the array, which a row of strings cannot hold.
- Pulses.Cells: lengths and indices of a scalar read as a row count Unicode code points, not UTF-16 code units. getFieldValue and toObject reading `data[i]` and validatePulse reading `row.length` on a scalar row therefore differ from JavaScript when the text holds a character above U+FFFF.
- Signals.ValidateForm: only the name check counts UTF-16 code units; the email and age checks compare characters, which code points and code units agree on for "@" and digits.
- Transforms.SelectDishWithDetails: the price is an integer and `String(price)` is its decimal numeral. Fractional prices such as 12.99 and prices given as strings are not modelled, because the model has no floating point.
- Tunnel.Register, Tunnel.HandlersOf and PulseTables.RowObject: channels and field names are ordinary map keys. In JavaScript the listener table and the object toObject fills are plain objects, so keys inherited from Object.prototype behave differently: `listen("constructor", h)` and `emit("toString", s)` throw a TypeError, and writing the key `"__proto__"` creates no key.
- Scalars mixed into the rows of a structured pulse are read as strings of characters, as JavaScript does. Arrays nested deeper than a row are not modelled.
- PulseTables.ValidatePulse: each error message is represented by its parts (the 0-based section and row, the expected and actual field counts); the message text itself ("Missing prompt", "Invalid trivalence (must be Y, N, or UN)", "Section s, row r: Expected k fields, got n") is not modelled.
- `pulse.responses` is always an array here, so validatePulse's "Responses must be an array" error cannot arise.
- DN_CreateAccount (ISEX2/DesignNode/CreateAccount.js) and Trello_Task/ISEX1.3/tunnels/emitter.js only log. The former is counted by `Intentions.AccountCreations`; the latter's `emit` is a no-op in the Trello_Task receivers.
- ISEX2/ObjectState_Email.js, DN_ShowResult.js and DN_CreateEmail.js import a `bus` that the bus module does not export. They are not part of this model.
- Trello_Task/ISEX1.3/helpers/pulse-helpers.js is not part of this model. The Signal_Journey script's local modules are taken to be the Trello_Task/ISEX1.3 receivers.
- Pure fixture and print-only files: basket-pulses.js, order-pulses.js, search-pulses.js, CreateSignal.js and the test-*.js scripts.
