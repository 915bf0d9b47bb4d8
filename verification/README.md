# React schema form wizard — a Dafny model of its core

The library renders a form from a JSON description. The form is either
multi-step, a list of steps that each declare their own fields, or simple, one
flat schema. The model covers the logic in the component's closures:

- **Normalisation.** The two dialects become one canonical per-field schema
  (`convertToRJSFSchema` and `convertSimpleSchemaForFiles`).
- **Validation.** The hand-written validator `validateCurrentStep` maps each
  field to one Portuguese error message.
- **Wizard state.** `step`, `formData`, `submitted` and `errors` change through
  `handleChange`, `handleNext`, `handleBack` and `handleSubmit`. The rendered
  buttons guard those handlers.
- **Result.** `handleSubmit` builds a `FormResult` from the accumulated data.

`src/components/FormSchemaWizard.tsx` (lines 38-290) and
`src/components/Formulario.tsx` (lines 90-342) hold byte-identical copies of
this logic. One model covers both, and the table below cites whichever copy is
more convenient.

Modules, in dependency order:

| module | file | what it holds |
|---|---|---|
| `Wrappers` | wrappers.dfy | `Option` |
| `Entries` | entries.dfy | property maps as `seq<(string, T)>` in `Object.entries` order; `Find` is a property read |
| `Js` | js.dfy | JavaScript values, truthiness, object spread, `trim`, `.length` in UTF-16 code units, number formatting |
| `Types` | types.dfy | the form JSON (`FormField`, `FormStep`, `SimpleFormSchema`, `FormJson`), the canonical `FieldSchema`/`ObjectSchema` and `FormResult` |
| `Normalize` | normalize.dfy | the two schema normalisers |
| `Formats` | formats.dfy | the email and date regular expressions, read as predicates |
| `Validate` | validate.dfy | the validator: required pass, ordered rule pass, messages |
| `Aggregate` | aggregate.dfy | the result builder for both dialects |
| `Wizard` | wizard.dfy | the state, the four handlers, the button guards, event sequences |
| `Findings` | findings.dfy | the property-read defect, as written and corrected |
| `Scenarios` | scenarios.dfy | small forms, among them the usage example's contact form |

`RegExp.prototype.test` for a schema's `pattern` and the `URL` constructor are
foreign calls. They appear as the two functions of a `Validate.Host` parameter.
The submission timestamp is a parameter too.

Some behaviours of the code are easy to misread. The model follows the code in
each of them:

- **Required messages can be overwritten.** A field that fails the required
  check is still checked further: the rule pass runs over every truthy value
  afterwards. So a whitespace-only value (truthy, but missing after `trim`) that
  also breaks `minLength` ends with the `minLength` message
  (`Scenarios.BlankRequiredValue`).
- **`pattern` need not match the whole value.** The code calls `RegExp.test`,
  which finds a match anywhere unless the pattern is anchored. The model passes
  the value and the pattern to `Host.regexTest` unchanged.
- **"Missing" means falsy.** A required field is missing when its value is
  falsy (`false`, `0`, `""`, `null`, absent) or is a string that trims to
  empty, not only when it is absent or blank.
- **Length bounds are copied only when truthy.** The step normaliser drops a
  `minLength` or `maxLength` of `0`.
- **A submitted form can be submitted again.** Nothing in the handlers checks
  `submitted`, so a second submission validates and aggregates again
  (`Wizard.ResubmissionNotBlocked`).
- **A step's own `required` array is ignored.** The step normaliser rebuilds
  `required` from the per-field `required` flags.

## Model

| member | source | states |
|---|---|---|
| Entries.Find | src/components/FormSchemaWizard.tsx:114-115 | a property read on a map built by `Object.entries` order: absent exactly when no entry has the key, otherwise the value of the last entry with that key |
| Entries.FindDistinct | src/components/FormSchemaWizard.tsx:43-50 | when the keys are distinct, reading a key gives back the value stored under it |
| Js.IsTruthy | src/components/FormSchemaWizard.tsx:106 | `!value` holds exactly for `undefined`, `null`, `false`, `0` and the empty string; every object is truthy |
| Js.Read | src/components/FormSchemaWizard.tsx:105 | reading a present own key yields its stored value and reading an absent key yields `undefined` |
| Js.Spread | src/components/FormSchemaWizard.tsx:186-189 | `{...prev, ...next}` has the union of the keys, and each key reads as `next`'s value when `next` has it, else as `prev`'s |
| Js.SpreadIfTruthy | src/components/FormSchemaWizard.tsx:48-49 | `...(x && {k: x})` adds the property exactly when the bound is present and truthy (non-zero), and then with the same value |
| Js.TrimStart | src/components/FormSchemaWizard.tsx:106 | the result is a suffix of the input, everything removed is whitespace, and it does not start with whitespace |
| Js.TrimEnd | src/components/FormSchemaWizard.tsx:106 | the result is a prefix of the input, everything removed is whitespace, and it does not end with whitespace |
| Js.TrimEmptyIffBlank | src/components/FormSchemaWizard.tsx:106 | `value.trim() === ''` holds exactly when every character of the value is ECMAScript whitespace |
| Js.Utf16Length | src/components/FormSchemaWizard.tsx:119-125 | `.length` lies between the number of code points and twice that, and equals it exactly when no character lies outside the Basic Multilingual Plane |
| Js.Utf16LengthConcat | src/components/FormSchemaWizard.tsx:119-125 | `.length` adds up over concatenation and a single character counts its own UTF-16 code units (one inside the Basic Multilingual Plane, two outside), so it is the string's number of code units |
| Js.NatToDecimal | src/components/FormSchemaWizard.tsx:120 | a bound in a message is written as a non-empty string of decimal digits without a leading zero |
| Js.DecimalRoundTrip | src/components/FormSchemaWizard.tsx:120 | the decimal text in a message reads back as the bound itself |
| Js.NumberToStringInjective | src/components/FormSchemaWizard.tsx:130 | different bounds are interpolated as different texts, negative bounds included |
| Normalize.FlaggedRequired | src/components/FormSchemaWizard.tsx:52-54 | the required list holds exactly the keys of fields flagged `required`, in property order |
| Normalize.ConvertStep | src/components/FormSchemaWizard.tsx:39-62 | same keys in the same order; each field keeps its type, label as title and description, and gains a length bound only when that bound is truthy; `required` is exactly the flagged keys, in property order |
| Normalize.ConvertSimple | src/components/Formulario.tsx:117-147 | same keys in the same order; an `object` field becomes a `data-url` string with the fixed description, other fields keep type, title, placeholder and the truthy bounds and enums; `required` is passed through unchanged |
| Normalize.NormalisedSchemasAreRestricted | src/components/Formulario.tsx:91-147 | neither normaliser ever produces `minimum`, `maximum` or `pattern`, and the only format either produces is `data-url` |
| Normalize.NormalisedKeysDistinct | src/components/Formulario.tsx:95-107 | normalisation keeps the number of properties and keeps distinct keys distinct |
| Formats.EmailMatchesRegex | src/components/FormSchemaWizard.tsx:155-156 | a string matches `^[^\s@]+@[^\s@]+\.[^\s@]+$` exactly when it has no whitespace, exactly one `@` not at the start, and a dot after it with characters on both sides |
| Formats.DateIsSyntaxOnly | src/components/FormSchemaWizard.tsx:161-162 | the date check is syntax only: `2023-02-31` and `0000-99-99` pass, while `2023-2-03`, `2023/02/03` and `2023-02-031` fail |
| Formats.EmailOfParts | src/components/Formulario.tsx:207 | any `a@b.c` whose three parts are non-empty and free of whitespace and `@` passes the email check |
| Formats.NoAtNoEmail | src/components/Formulario.tsx:207 | a string without `@` never passes the email check |
| Formats.EmailAccepted | src/components/Formulario.tsx:207-208 | `a@b.com` and `ana@x.com` pass the email check |
| Formats.EmailRejected | src/components/Formulario.tsx:207-208 | `not-an-email`, `a@b`, `a@@b.com` and `a b@c.com` fail the email check |
| Validate.UncheckedFormatsPass | src/components/FormSchemaWizard.tsx:152-175 | only `email`, `date`, `uri` and `url` are checked; any other format, `data-url` included, never produces an error |
| Validate.Title | src/components/FormSchemaWizard.tsx:107-116 | a message names the field by its declared title when that title is non-empty, and by its key otherwise, in particular for an undeclared key |
| Validate.ApplyRules | src/components/FormSchemaWizard.tsx:118-175 | the rules run in the order minLength, maxLength, minimum, maximum, pattern, enum, format, and the last one violated sets the field's error, replacing whatever was there; with no violation the earlier entry stays |
| Validate.RequiredPass | src/components/FormSchemaWizard.tsx:104-110 | a required field gets the "required" error exactly when its value is missing: falsy, or a string that trims to empty |
| Validate.RulePass | src/components/FormSchemaWizard.tsx:113-177 | after the rule pass over the form data, a field that breaks a rule holds the last rule it breaks, and every other field keeps the entry the required pass left |
| Validate.Issues | src/components/FormSchemaWizard.tsx:98-177 | a field has an error exactly when it is required and missing, or a rule fails on its truthy declared value; the error is the last failed rule, else "required" |
| Validate.Message | src/components/FormSchemaWizard.tsx:108-171 | every message starts with the field's title followed by a space |
| Validate.MessageIdentifiesRule | src/components/FormSchemaWizard.tsx:108-171 | two messages for the same field are equal only when they come from the same rule with the same bound, so a message tells which rule failed |
| Validate.ValidateStep | src/components/Formulario.tsx:150-233 | the message map has exactly the fields with issues, each with its Portuguese message; the verdict is true exactly when the map is empty, exactly when every required field is present and no value breaks a rule |
| Validate.NoIssuesIffClean | src/components/Formulario.tsx:231-232 | no issues exactly when every required field is present and no entered value breaks a rule of its field |
| Validate.RuleErrorsNeedTruthyDeclaredValue | src/components/Formulario.tsx:165-166 | an error other than "required" is only ever raised for a field the user set to a truthy value and that the schema declares |
| Validate.NormalisedSchemaRules | src/components/Formulario.tsx:170-227 | on a normalised schema only the minLength, maxLength and enum rules can fire |
| Aggregate.CollectFields | src/components/FormSchemaWizard.tsx:248-259 | one walk over a field list keeps the earlier entries and adds or replaces an entry for each declared key whose value is not `undefined`, built from that key's declaration |
| Aggregate.CollectSteps | src/components/FormSchemaWizard.tsx:244-260 | a field appears in the result exactly when some step declares it and its value is not `undefined`; the entry carries the value and the type, label and required flag of the last step that declares it |
| Aggregate.CollectSimple | src/components/Formulario.tsx:313-329 | a field appears exactly when the schema declares it and its value is not `undefined`; its type is `file` for an `object` field, and it is marked required exactly when the schema's list names it |
| Aggregate.DeclaredStepDataCollected | src/components/FormSchemaWizard.tsx:247-260 | when every entered value is defined and declared by some step, the result holds exactly the entered fields |
| Aggregate.DeclaredDataCollected | src/components/FormSchemaWizard.tsx:265-276 | when every entered value is defined and declared by the simple schema, the result holds exactly the entered fields |
| Aggregate.Aggregate | src/components/FormSchemaWizard.tsx:227-241 | the result records the form's id, title, dialect and the submission time, and collects fields by the form's dialect |
| Aggregate.EntriesCarryTheirValue | src/components/Formulario.tsx:300-310 | every result entry is named after its key and carries the entered value, which is never `undefined` |
| Aggregate.FileTypeMatchesNormaliser | src/components/Formulario.tsx:319-324 | every field the normaliser turns into a `data-url` input is reported as `file`; a field reported as `file` is either such a field or one declared with type `file` |
| Wizard.CurrentSchema | src/components/FormSchemaWizard.tsx:214-223 | the schema validated on submit has the current step's (or the simple schema's) field names, each field carried over as its normaliser promises, only length, enum and file constraints, and as required fields exactly the step's flagged fields (for a simple form, its `required` list unchanged) |
| Wizard.HandleChange | src/components/FormSchemaWizard.tsx:184-193 | without `formData` nothing changes; otherwise the data are merged with the incoming values winning, the errors are cleared, and step and submitted stay |
| Wizard.HandleNext | src/components/FormSchemaWizard.tsx:196-204 | the errors become the current step's validation messages, and the step advances by one exactly when there are none; the data never change |
| Wizard.HandleBack | src/components/Formulario.tsx:259-262 | the step goes down by one with no check of its own and the errors are cleared; the data stay |
| Wizard.HandleSubmit | src/components/FormSchemaWizard.tsx:213-290 | validates the current step's or the simple schema; a result exists exactly when there are no errors, then `submitted` is set and the result is the aggregate of the data; otherwise `submitted` is unchanged |
| Wizard.Dispatch | src/components/FormSchemaWizard.tsx:334-381 | with Back disabled at step 0, Next shown only before the last step and Send on the last, every event keeps the step within the steps; only field edits change the data |
| Wizard.Run | src/components/Formulario.tsx:386-433 | any sequence of user events keeps the step a valid index of the steps |
| Wizard.SessionsStayInBounds | src/components/FormSchemaWizard.tsx:24-27 | a session starts at step 0 with no data, no errors and not submitted, which any form with a step can render, and stays renderable under any events; without edits the data stay empty |
| Wizard.NavigationKeepsData | src/components/Formulario.tsx:248-262 | moving between steps and submitting never drop or alter entered data |
| Wizard.ResubmissionNotBlocked | src/components/Formulario.tsx:331 | after a successful submission, submitting the same data again succeeds again with the same fields |
| Findings.AsSeenByPropertyRead | src/components/FormSchemaWizard.tsx:105 | the form data as a property read sees them: own keys first, then the names inherited from `Object.prototype` read as objects |
| Findings.RequiredPassAsWritten | src/components/FormSchemaWizard.tsx:104-110 | the required pass as written, reading through inherited members |
| Findings.CollectSimpleAsWritten | src/components/FormSchemaWizard.tsx:265-276 | the simple-form collector as written, reading through inherited members |
| Findings.CollectStepsAsWritten | src/components/FormSchemaWizard.tsx:247-250 | the multi-step collector as written, reading through inherited members |
| Findings.InheritedNameHidesMissingRequired | src/components/FormSchemaWizard.tsx:105 | a required field named `constructor` left empty raises no error as written, but does in the corrected pass |
| Findings.InheritedNameEmitsUnsetField | src/components/FormSchemaWizard.tsx:266-267 | a declared field named `toString` that the user never set is emitted as written, but not by the corrected collector |
| Findings.InheritedNameEmitsUnsetStepField | src/components/FormSchemaWizard.tsx:249-250 | a step field named `valueOf` that the user never set is emitted with a function as value as written, but not by the corrected collector |
| Findings.UnsetFieldsHandled | src/components/FormSchemaWizard.tsx:104-110 | in the corrected model a field the user never set is reported as missing when required and is never in the result |
| Scenarios.MissingRequiredEmail | src/components/FormSchemaWizard.tsx:104-110 | an empty form with a required `email` fails with exactly `Email é obrigatório` |
| Scenarios.EmailFieldVerdict | src/components/FormSchemaWizard.tsx:152-159 | an optional `email`-format field passes exactly when it is left empty or holds an e-mail address |
| Scenarios.EmailFormat | src/components/FormSchemaWizard.tsx:154-158 | an `email`-format field rejects `not-an-email` and accepts `a@b.com` |
| Scenarios.BlankIsMissing | src/components/FormSchemaWizard.tsx:106 | a three-space string is truthy, counts as missing, and is three code units long |
| Scenarios.BlankRequiredValue | src/components/FormSchemaWizard.tsx:104-121 | the three-space value in a required field with a `minLength` ends with the `minLength` message exactly when the bound exceeds its length, and with the "required" message otherwise |
| Scenarios.OneFieldStepSchema | src/components/Formulario.tsx:91-114 | a one-field step flagged required normalises to that field alone with its label as title and its key required |
| Scenarios.OneFieldStepValid | src/components/Formulario.tsx:150-233 | such a step validates once its field holds a non-empty string whose first character is not whitespace |
| Scenarios.NextThenBack | src/components/Formulario.tsx:248-262 | on a two-step form, Next from a valid first step and then Back return to step 0 with the data untouched |
| Scenarios.SubmitChecksLastStepOnly | src/components/Formulario.tsx:265-271 | submitting from the last step validates only that step: a required first-step field left as `""` does not stop it, and it still appears in the result because it is not `undefined` |
| Scenarios.ContactSchema | src/components/FormSchemaWizard.tsx:65-95 | the usage example's contact form normalises to its four fields in order: `name`, `email` and `message` as titled string inputs with their placeholders, `subject` keeping its three topics and their labels; no field becomes a file input and `name` and `email` stay required |
| Scenarios.ContactValid | src/components/FormSchemaWizard.tsx:98-181 | the filled contact form validates |
| Scenarios.ContactFields | src/components/FormSchemaWizard.tsx:261-276 | the contact form filled with a name and an e-mail yields exactly those two entries, with their types, titles and required flags; the unset `subject` and `message` are left out |
| Scenarios.ContactFormSubmission | src/components/FormSchemaWizard.tsx:213-290 | submitting the filled contact form succeeds and returns the form's id, title and dialect, the given time and the two filled fields |

## Left out

- Rendering is not modelled: the JSX, the progress bar, the error and success panels, and the RJSF `Form` and its AJV validator. The handlers are modelled; how the screen shows them is not.
- The effect that hides RJSF's own submit button through the DOM is not modelled. It only changes the display.
- The `onSubmit` callback and the `console.log` fallback are not modelled. `Wizard.HandleSubmit` returns the result that either would receive.
- `new Date().toISOString()` is a parameter (`now`), because the model has no clock.
- `RegExp` for `pattern` and the `URL` constructor are the uninterpreted functions of `Validate.Host`. The `SyntaxError` that `new RegExp` throws on an invalid pattern is not modelled.
- Numbers are integers. Fractions, `NaN`, infinities and the exponent forms of number-to-string are not modelled.
- `Object.entries` puts integer-like keys first in ascending order. The model takes property lists in enumeration order as given.
- The display order of the error messages and of the result's fields is not modelled: both are maps here.
- React's batching of state updates is not modelled. Each handler is one atomic state change.
- The Shadcn theme (`src/components/rjsfShadcnTheme.tsx`), `CustomSelectWidget`, the client wrappers, `src/index.ts` and the build configuration are outside the core.
- Indexing `steps[step]` with an out-of-range step throws in the source. `Wizard.HandleNext`, `Wizard.HandleSubmit` and `Wizard.CurrentSchema` require the step in range instead, and `Wizard.Dispatch` shows that the guards keep it there.
- A multi-step form with no steps crashes the source at render. `Wizard.InBounds` cannot hold for it, so the model starts no session on one.
- The `isMultiStep` flag and the shape of `json_schema` are one datatype here (`Types.Body`). A form whose flag contradicts its shape is not representable.
- Wizard.Dispatch: when the form's own submit fires, RJSF first runs its AJV validation against the rendered schema and calls `onSubmit` only if that passes. The model does not have that gate, so it allows more transitions than the source.
- The form JSON's three timestamps are dropped, because nothing in the core reads them.
- Strings are sequences of code points. Lone surrogates are not representable.
- The special setter behaviour of a `__proto__` key in object spread and property assignment is not modelled.

## Findings

| source | as written | input that shows it | evidently intended | confidence | as-written member | corrected member |
|---|---|---|---|---|---|---|
| src/components/FormSchemaWizard.tsx:105 | `formData[fieldName]` also finds members inherited from `Object.prototype`, so a required field named like one of them always looks filled | a required field `constructor` with no data entered: no error is raised | only the user's own entries count, so the field is reported missing | high (JavaScript property lookup); not executed | Findings.RequiredPassAsWritten (shown by Findings.InheritedNameHidesMissingRequired) | Validate.RequiredPass (with Findings.UnsetFieldsHandled) |
| src/components/FormSchemaWizard.tsx:249 | the multi-step collector reads `formData[fieldKey]` the same way, so a step field named like an inherited member is always emitted | a step field `valueOf` that was never set: the result carries it with a function as value | unset fields are left out of the result | high (JavaScript property lookup); not executed | Findings.CollectStepsAsWritten (shown by Findings.InheritedNameEmitsUnsetStepField) | Aggregate.CollectSteps (with Findings.UnsetFieldsHandled) |
| src/components/FormSchemaWizard.tsx:266 | the simple-form collector reads `formData[fieldKey]` the same way, so a declared field named like an inherited member is always emitted | a declared field `toString` that was never set: the result carries it with a function as value | unset fields are left out of the result | high (JavaScript property lookup); not executed | Findings.CollectSimpleAsWritten (shown by Findings.InheritedNameEmitsUnsetField) | Aggregate.CollectSimple (with Findings.UnsetFieldsHandled) |
