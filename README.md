# Form validation of the "mesto" page, modelled in Dafny

The page has three modal forms: edit profile, new card and edit avatar. A
small helper in `src/scripts/components/validation.js` watches every input of
each form. On each `input` event it reads the browser's constraint-validation
result for the field. If the field is invalid, it shows an error message in
the label next to the field. The message is the field's custom
`data-error-message` text on a pattern mismatch, and the browser's own
`validationMessage` otherwise. If the field is valid, it hides the label. It
then enables the submit button when no input is invalid, and disables it when
at least one is. `clearValidation` is the reset run whenever a form is
opened: it hides every error and disables the button.

The project has two modules:

- `ValidationModel` (`validation_model.dfy`) describes a form as a value.
  - A form is a `FormState`: its inputs in document order, one `ErrorLabel`
    per input and the `ButtonState`.
  - Each state-changing helper of the source is a function from the old
    state to the new one.
  - Each function's postconditions say what the helper promises. The lemmas
    relate several steps: idempotence, hide-after-show and runs of
    keystrokes.
  - Class lists are `set<string>`. The configured class names have type
    `ClassName`, which holds only strings that `classList.add` and
    `classList.remove` accept: non-empty and free of whitespace.
  - `dataset.errorMessage` is an `Option<string>`. It is `None` when the
    attribute is absent, so that the value is `undefined` in JavaScript.
    `OrElse` is JavaScript's `||` on it.
- `Validation` (`validation.dfy`) is the imperative form.
  - `SubmitButton` is a class with the button's `disabled` flag and class
    list.
  - `Form` holds `array`s of input and label records and a reference to its
    button.
  - The methods change those arrays and fields in place, in the source's
    order. Each one ensures that the new `State()` equals the matching
    `ValidationModel` function applied to the old state.
  - `ClearValidation` runs `HideAllErrors`, a loop over the inputs like the
    source's `forEach`, and then disables the button.
  - `LettersOnlyExample` and `EmptiedFieldExample` are verified clients of a
    form with one name field that has a pattern and the custom message
    "Letters only" (built by `NameForm`, with the class names that
    `src/scripts/index.js` configures). The first goes through setup, a
    mistyped digit, a valid value and a reset; the second empties the
    field after setup. Each asserts the label text and the button state
    after every step.

The browser's side is an input to the model, not computed by it:
`validity.valid`, `validity.patternMismatch` and `validationMessage` are
opaque values per input. `ValidationModel.Edit` and `Validation.Form.BrowserEdit`
stand for the browser re-evaluating one input after the user typed. They may
set these values arbitrarily.

Two facts about the code shape the model:

- The submit button reflects the inputs (disabled exactly when some input is
  invalid) after setup and after every input event, but not right after
  `clearValidation`, which disables it whatever the validities are. A
  pre-filled, valid profile form therefore opens with a disabled button
  (`ClearValidationDisablesValidForm`).
- The helper has no null checks: `showInputError` and `hideInputError`
  throw on a missing error element. The model therefore requires every
  input to have its label (`WellFormed`, `Form.Valid`).

## Model

| member | source | states |
|---|---|---|
| `ValidationModel.ErrorId` | src/scripts/components/validation.js:4 | the id looked up for an input's error element is the input's id followed by "-error", six characters longer, with the input's id as its prefix so that it can be read back |
| `ValidationModel.FindLabel` | src/scripts/components/validation.js:4 | the lookup of an element by an id that is a CSS identifier gives the first label in document order with that id, and None exactly when no label has it |
| `ValidationModel.LabelOfInput` | src/scripts/components/validation.js:19 | in a well-formed form (label k has id `<id of input k>-error`, that id is a CSS identifier, input ids are distinct and no input has a label's id) the label found for input i is label i, so the lookup always succeeds |
| `Validation.Form.LabelIndex` | src/scripts/components/validation.js:4 | the error-element lookup the methods perform returns the index of the input's own label |
| `ValidationModel.ShowInputError` | src/scripts/components/validation.js:2-14 | label i's text becomes msg; input i gains inputErrorClass and label i gains errorClass, with no other class added or removed; every other input and label and the button are unchanged; the page stays well formed |
| `ValidationModel.HideInputError` | src/scripts/components/validation.js:17-29 | label i's text becomes empty; inputErrorClass and errorClass are removed from input i and label i, and no other class changes; everything else is unchanged |
| `ValidationModel.HideInputErrorIdempotent` | src/scripts/components/validation.js:17-29 | hiding an error twice gives the same page as hiding it once |
| `ValidationModel.HideAfterShow` | src/scripts/components/validation.js:2-29 | hiding after showing any message gives the same page as hiding alone: showing leaves no trace |
| `ValidationModel.OrElse` | src/scripts/components/validation.js:40 | JavaScript's logical or of the custom message and the browser's message: the custom message when it is present and non-empty, the fallback otherwise; empty exactly when both are absent or empty |
| `ValidationModel.CheckInputValidity` | src/scripts/components/validation.js:33-49 | a valid input has its error hidden; an invalid input with a pattern mismatch and a non-empty custom message shows the custom message; any other invalid input shows the browser's message; the shown text is non-empty when the browser's message is; afterwards the error classes are present exactly when the input is invalid; only input i and label i change, and no validity changes |
| `ValidationModel.HasInvalidInput` | src/scripts/components/validation.js:52-57 | true exactly when some input of the list has validity.valid false; so false on an empty list |
| `ValidationModel.DisableSubmitButton` | src/scripts/components/validation.js:61-64 | the button becomes disabled and gains the inactive class, with no other class touched |
| `ValidationModel.EnableSubmitButton` | src/scripts/components/validation.js:67-70 | the button becomes enabled and loses the inactive class, with no other class touched |
| `ValidationModel.ToggleButtonState` | src/scripts/components/validation.js:73-79 | the button is disabled exactly when some input is invalid, carries the inactive class exactly when disabled, and keeps every other class |
| `ValidationModel.EmptyFormEnablesButton` | src/scripts/components/validation.js:52-57 | a form with no monitored inputs ends up with an enabled button without the inactive class |
| `ValidationModel.SetEventListeners` | src/scripts/components/validation.js:81-89 | before any input event the button already reflects the aggregate invalidity; inputs and labels are untouched |
| `ValidationModel.OnInput` | src/scripts/components/validation.js:93-96 | after the input listener of input i, the button reflects the aggregate invalidity and input i's error display agrees with its validity; other inputs and labels are unchanged; no validity changes |
| `ValidationModel.ReplayReflects` | src/scripts/components/validation.js:92-97 | after any non-empty sequence of user edits, each followed by its input event, the button reflects the form; every touched input displays its own validity; every untouched input and its label are exactly as before |
| `ValidationModel.HideFirst` | src/scripts/components/validation.js:109-111 | applying hideInputError to the first n inputs keeps the form well formed, keeps the number of inputs, changes no validity and leaves the button untouched |
| `ValidationModel.HideFirstHides` | src/scripts/components/validation.js:109-111 | after the first n steps of the reset's forEach, errors 0..n-1 are hidden and inputs n.. are untouched |
| `ValidationModel.ClearValidation` | src/scripts/components/validation.js:101-115 | every input's error is hidden (texts empty, both error classes gone, nothing else about the input or label changed) and the button is disabled with the inactive class added, whatever the validities |
| `ValidationModel.ClearValidationIdempotent` | src/scripts/components/validation.js:101-115 | resetting twice gives the same page as resetting once |
| `ValidationModel.ClearValidationDisablesValidForm` | src/scripts/index.js:157-161 | when every input is valid (the pre-filled profile form) the reset still disables the button, so "disabled iff some input is invalid" fails until the first input event |
| `Validation.SubmitButton.Disable` | src/scripts/components/validation.js:61-64 | the button's new state is DisableSubmitButton of its old state |
| `Validation.SubmitButton.Enable` | src/scripts/components/validation.js:67-70 | the button's new state is EnableSubmitButton of its old state |
| `Validation.Form.ShowInputError` | src/scripts/components/validation.js:2-14 | the in-place update of the input and label arrays yields ShowInputError of the old form state |
| `Validation.Form.HideInputError` | src/scripts/components/validation.js:17-29 | the in-place update yields HideInputError of the old form state |
| `Validation.Form.CheckInputValidity` | src/scripts/components/validation.js:33-49 | the in-place update yields CheckInputValidity of the old form state |
| `Validation.Form.ToggleButtonState` | src/scripts/components/validation.js:73-79 | the button's new state is ToggleButtonState of the current inputs and the old button, so the button reflects the form |
| `Validation.Form.SetEventListeners` | src/scripts/components/validation.js:81-89 | the form's new state is SetEventListeners of the old one |
| `Validation.Form.OnInput` | src/scripts/components/validation.js:93-96 | the form's new state is OnInput of the old one |
| `Validation.Form.HideAllErrors` | src/scripts/components/validation.js:109-111 | the loop over the inputs yields HideFirst of the old form state over all of them |
| `Validation.Form.ClearValidation` | src/scripts/components/validation.js:101-115 | the loop over the inputs and the final disable yield ClearValidation of the old form state |
| `Validation.EnableValidation` | src/scripts/components/validation.js:117-125 | every form of the list ends in SetEventListeners of its old state, so every button reflects its form |

## Left out

- `src/scripts/index.js` is not part of this model. It holds DOM lookups,
  listener wiring, submit handlers that copy input values into the profile,
  and card rendering. The model uses only its configuration class names (in
  `LettersOnlyExample`) and the fact that each form is reset when it opens.
- The modal, card and seed-data modules (`modal.js`, `card.js`, `cards.js`)
  are not part of this model.
- How the browser computes `validity.valid`, `validity.patternMismatch` and
  `validationMessage` (required, pattern and type constraints) is native
  code. These values are opaque inputs. `Edit` and `BrowserEdit` may set
  them to anything.
- CSS selector matching is not modelled: `formSelector`, `inputSelector`,
  `submitButtonSelector` and `querySelectorAll`. A form's inputs and labels
  are given as parallel arrays. Only the `#<id>-error` lookup is modelled,
  as `FindLabel` over the labels.
- Event dispatch and listener registration (`addEventListener`) are not
  modelled. The listener body is the method `Form.OnInput`, which a client
  calls.
- A missing error element is not modelled. The source throws on it; the
  model requires every input to have its label.
- An input id that needs CSS escaping in a selector (such as `a.b` or
  `1st`) is not modelled. With it, `#<id>-error` is a different selector or
  a syntax error, so the source finds nothing or throws; `WellFormed`
  requires every label id to be a CSS identifier.
- Elements of the form other than its inputs and labels are not modelled.
  The model relies on ids being unique in the document: input ids are
  distinct and no input has a label's id (`WellFormed`).
- A form without a submit button is not modelled. `querySelector` then
  returns null (validation.js:86, :106) and `disableSubmitButton` or
  `enableSubmitButton` throws; a `Form` always has its `SubmitButton`.
- A class name that `classList` refuses (empty or containing whitespace) is
  not modelled. This would throw in the source; the model excludes such
  names by the type `ClassName`.
- A `classList` is an ordered token list. The model keeps it as a set, so
  the order of classes is not captured.
- `Validation.EnableValidation` requires the forms to have distinct submit
  buttons. HTML forms cannot nest, so a button belongs to one form.
