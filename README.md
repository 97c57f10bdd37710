# Multi-step form component, modelled in Dafny

This project models the form interpreter of a client-side multi-step form
(`src/components/FormSection.tsx`). The component shows one section of a
fetched form schema at a time. It keeps three pieces of state:

- the index of the visible section;
- the values typed so far, by field id (a string, or a list of strings for a checkbox group);
- the error messages, by field id.

Its handlers are:

- the change handler, which stores a value and blanks that field's error;
- the section validator (required, minimum length, maximum length);
- Next, Prev and Submit;
- the checkbox list update.

Modules:

- `Schema` (`schema.dfy`): the schema types (form section, field, option, validation
  record) and the stored field value, `Str(s)` or `Multi(items)`. The types file is not
  part of this model; the types are rebuilt from how the component reads them.
- `Text` (`text.dfy`): JavaScript `trim` over the ECMAScript whitespace set, and the
  decimal rendering of an integer in a template literal.
- `Validator` (`validator.dfy`): the three rules as predicates, and `FieldCheck`, the
  outcome for one field stated by priority. `SectionErrors` folds `FieldCheck` over a
  section. `ValidateFields` is the component's loop, which runs the three `if`s in
  source order on a fresh map. It is proved to compute `SectionErrors`.
- `Checkbox` (`checkbox.dfy`): the list a checkbox hands to the change handler, and the
  radio and checkbox "checked" predicates.
- `Component` (`component.dfy`): class `FormSectionComponent` with the three state
  fields and one method per handler.
- `Scenarios` (`scenarios.dfy`): two runs of the class through its handlers.

Behaviour of the code that is easy to misread:

- The three rules are independent `if`s. When several fire, the last one sets the
  message, so max beats min beats required. It is not "first rule wins".
- Editing a field writes an empty message into that field's error entry. It does not
  delete the entry. An empty message is not displayed.
- Checking a checkbox appends the value unconditionally. The list stays free of
  duplicates only because a checkbox reports the opposite of what it shows
  (`ToggleKeepsDistinct`).
- Submit does not move to a terminal state. It reports the values and leaves the state
  as it is.
- A required field holding a list (a checkbox group with a selection, even an empty
  one) reaches `value.trim()`, which arrays do not have. Validation throws a
  `TypeError` before `setErrors`, so nothing changes. The section can never pass
  (`RequiredListBlocksSection`). The model records this as
  `SectionResult.TypeError` and `Outcome.Crashed`.
- Checking and then unchecking a checkbox of a field that held nothing leaves an
  empty list, not nothing. On a required field that turns the required error into
  the `TypeError` above (`CheckThenUncheckFromAbsent`).
- Length limits apply to lists too, counting the entries. A limit of 0 counts as
  absent, because it is falsy.

## Model

| member | source | states |
|---|---|---|
| `Text.TrimStart` | src/components/FormSection.tsx:35 | the result is the suffix of the input after its leading whitespace, and it does not start with whitespace |
| `Text.TrimEnd` | src/components/FormSection.tsx:35 | the result is the prefix of the input before its trailing whitespace, and it does not end with whitespace |
| `Text.Trim` | src/components/FormSection.tsx:35 | `value.trim()` is no longer than the value and neither starts nor ends with whitespace |
| `Text.TrimIsMiddle` | src/components/FormSection.tsx:35 | `value.trim()` is exactly the part of the value between its leading whitespace and its trailing whitespace |
| `Text.TrimEmptyIffAllWhitespace` | src/components/FormSection.tsx:35 | `value.trim() === ''` holds exactly when every character of the value is whitespace |
| `Text.NatToString` | src/components/FormSection.tsx:39 | the rendering of a limit is a non-empty run of decimal digits without a leading zero whose decimal value is the limit |
| `Text.IntToString` | src/components/FormSection.tsx:42 | a rendered limit starts with a minus sign exactly when the limit is negative; after the sign come only decimal digits, at least one and without a leading zero, and they read back as the limit's magnitude |
| `Validator.FieldCheck` | src/components/FormSection.tsx:33-43 | a field passes exactly when no rule fires and `trim` does not throw; a failing field always has a non-empty message; the rules are the predicates `TrimThrows` (line 35), `RequiredViolated` (line 35, with `Truthy`), `MinViolated` (line 38) and `MaxViolated` (line 41, both with `LimitSet`), and the message is `CustomOr` of the template |
| `Validator.SectionErrors` | src/components/FormSection.tsx:30-44 | the errors of a section mention only ids of that section's fields, and a `TypeError` names one of them |
| `Validator.CheckField` | src/components/FormSection.tsx:33-43 | the three `if`s on one field throw exactly when `FieldCheck` says so; a passing field leaves the map as it was and a failing one sets its entry to `FieldCheck`'s message |
| `Validator.ValidateFields` | src/components/FormSection.tsx:30-44 | running the three rules in source order over the section's fields, each overwriting the field's entry, gives the priority-ordered `SectionErrors`; the first throwing field ends the loop with a `TypeError` |
| `Validator.TypeErrorPersists` | src/components/FormSection.tsx:32-35 | once a field has thrown, the remaining fields do not change the result |
| `Validator.ErrorKeysAreFailingFields` | src/components/FormSection.tsx:30-46 | the new error map's keys are exactly the ids of the section's failing fields: nothing from the old map survives and no field outside the section appears |
| `Validator.LastFailingFieldSetsMessage` | src/components/FormSection.tsx:32-43 | a failing field's entry holds its own message unless a later field with the same id also fails |
| `Validator.MessagesNonEmpty` | src/components/FormSection.tsx:36-42 | every message the validator writes is non-empty, so every error it records is displayed |
| `Validator.TypeErrorIffSomeFieldThrows` | src/components/FormSection.tsx:32-35 | validation throws exactly when some field of the section throws |
| `Validator.TypeErrorNamesFirstThrowingField` | src/components/FormSection.tsx:32-35 | a `TypeError` names the first field of the section that throws |
| `Validator.PassesIffAllFieldsPass` | src/components/FormSection.tsx:47 | validation returns true (an error map with no keys) exactly when every field of the section passes |
| `Validator.RequiredStringRule` | src/components/FormSection.tsx:35 | the required rule fires on a string exactly when the field is required and the string is empty or whitespace only |
| `Validator.RequiredBlankFieldFails` | src/components/FormSection.tsx:35-43 | a required field that is absent, empty or whitespace only fails; its message is "This field is required" unless a length rule also fires, and no length rule fires on an absent or empty value |
| `Validator.InRangeStringPasses` | src/components/FormSection.tsx:35-43 | a non-blank string (or any string of an optional field) whose length is within the limits passes; a length equal to a limit passes, and a limit of 0 is no limit |
| `Validator.LengthRuleMessage` | src/components/FormSection.tsx:38-43 | when a length rule fires, a non-empty custom message wins; otherwise the maximum template beats the minimum template; both fire only when the maximum is below the minimum |
| `Validator.ListValueRules` | src/components/FormSection.tsx:35-43 | a list on a required field throws; on an optional field it passes exactly when its entry count is within the set limits |
| `Validator.RequiredListBlocksSection` | src/components/FormSection.tsx:32-35 | a required field holding a list makes validation of its section throw |
| `Checkbox.RadioChecked` | src/components/FormSection.tsx:115 | a radio option shows as checked exactly when the stored value is that string, and then no checkbox of the field shows the same option as checked |
| `Checkbox.CheckboxChecked` | src/components/FormSection.tsx:133 | a checkbox option shows as checked exactly when the stored value is a list holding it |
| `Checkbox.ExistingValues` | src/components/FormSection.tsx:137-139 | the stored value, or `[]` when it is falsy, spread into a list: nothing or an empty string gives `[]`, a list gives itself, a string gives its characters one by one |
| `Checkbox.NextValues` | src/components/FormSection.tsx:133-144 | checking appends the option to the existing list (same entries plus one); unchecking removes all its occurrences; the option then shows checked exactly when the event said checked; unchecking a non-empty string throws |
| `Checkbox.RemoveAll` | src/components/FormSection.tsx:143 | filtering removes every occurrence of the value and keeps every other entry with its multiplicity |
| `Checkbox.CheckAppends` | src/components/FormSection.tsx:133-139 | checking appends the option after the existing list (absent counts as empty), and the option then shows as checked |
| `Checkbox.UncheckRemovesEvery` | src/components/FormSection.tsx:133-144 | unchecking removes all occurrences and nothing else, and the option then shows as unchecked |
| `Checkbox.RemoveAllConcat` | src/components/FormSection.tsx:143 | filtering keeps the order of the remaining entries: it distributes over concatenation |
| `Checkbox.RemoveAllAbsent` | src/components/FormSection.tsx:143 | filtering out a value that is not in the list leaves the list as it is |
| `Checkbox.CheckThenUncheckRestores` | src/components/FormSection.tsx:137-144 | checking and then unchecking an option that was not in the list restores the previous list |
| `Checkbox.CheckThenUncheckFromAbsent` | src/components/FormSection.tsx:35-144 | from a field with no value, checking then unchecking leaves `[]`; on a required field the absent value fails with the required message while `[]` throws |
| `Checkbox.RemoveAllKeepsDistinct` | src/components/FormSection.tsx:143 | filtering a list without repeated entries gives a list without repeated entries |
| `Checkbox.ToggleKeepsDistinct` | src/components/FormSection.tsx:133-146 | when the event reports the opposite of the shown state, the update succeeds and a list without repeats stays without repeats |
| `Component.FormSectionComponent.constructor` | src/components/FormSection.tsx:10-14 | the component starts on section 0 with no values and no errors |
| `Component.FormSectionComponent.ErrorShown` | src/components/FormSection.tsx:168-170 | an error is rendered under a field exactly when its entry is present and is a non-empty (truthy) string |
| `Component.FormSectionComponent.HandleChange` | src/components/FormSection.tsx:16-27 | the field's value is replaced and its error entry becomes `''` (no longer shown); every other value and error and the index stay the same; afterwards a radio option shows checked exactly when the new value is that string, and a checkbox option exactly when the new value is a list holding it |
| `Component.FormSectionComponent.ValidateSection` | src/components/FormSection.tsx:29-48 | the error map is replaced by `SectionErrors` of the visible section, whose keys are ids of that section and whose messages are non-empty; the result is true exactly when that map is empty; on a `TypeError` nothing changes |
| `Component.FormSectionComponent.HandleNext` | src/components/FormSection.tsx:50-54 | the index rises by exactly 1 when the section validates and stays otherwise; values are kept; the index stays within the sections |
| `Component.FormSectionComponent.HandlePrev` | src/components/FormSection.tsx:56-58 | the index falls by exactly 1 without validation; values and errors are untouched; the index stays within the sections |
| `Component.FormSectionComponent.HandleSubmit` | src/components/FormSection.tsx:60-65 | the collected values are reported exactly when the last section validates; the index and the values never change |
| `Component.FormSectionComponent.HandleCheckboxChange` | src/components/FormSection.tsx:134-146 | the field's value becomes the list with the option appended or removed, and its error entry `''`; the option then shows checked exactly when the event said checked; when `filter` meets a string nothing changes |
| `Scenarios.SubmitAfterFillingRequiredField` | src/components/FormSection.tsx:16-65 | submitting an empty required field reports nothing; after typing "Alice" the submission carries exactly `{name: "Alice"}` |
| `Scenarios.NextBlocksUntilFilled` | src/components/FormSection.tsx:16-58 | Next on a section with an empty required field stays on it with the error shown; after filling it, Next, Prev, Next reach the second section with the value kept |

## Left out

- src/components/Login.tsx, src/components/FormPage.tsx and src/utils/api.ts are not part of this model. They hold HTTP calls, `alert`, `useEffect` and the loading and login views.
- The JSX rendering of `renderField` and of the component is left out. Only the checked predicates (`Checkbox.RadioChecked`, `Checkbox.CheckboxChecked`) and the error-display test (`ErrorShown`) are kept. The `placeholder`, `dataTestId` and label props only affect display.
- `console.log` and `alert` in `handleSubmit` are left out: `HandleSubmit` returns the collected values instead.
- React's deferred `setState` batching is left out: each handler is one atomic step on the current state.
- The constructor requires at least one section, because the component reads `sections[0]` while rendering and fails on an empty list.
- Characters stand for UTF-16 code units and string length is `|s|`. Surrogate pairs are not modelled, so spreading a string (`Checkbox.Characters`) yields one entry per character.
- Field ids are assumed not to be names of `Object.prototype` properties (`constructor`, `__proto__`, `toString`, ...). The component reads and writes plain objects, where such ids see inherited values or change the prototype; the model uses maps with no inherited entries.
- Text.IntToString: limits are assumed below 10^21 in magnitude. JavaScript writes larger numbers in exponent notation (`1e+21`), which the model does not render; schema limits of that size are not realistic lengths.
- Length limits are integers. Fractional or `NaN` limits from the schema are not modelled.
- Uncaught exceptions (`TypeError` from `trim` or `filter`) are modelled as "nothing changes". React's error reporting is not modelled.
