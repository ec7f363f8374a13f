/**
 * Value-level model of the form-validation helper of the "mesto" page
 * (src/scripts/components/validation.js).
 *
 * One form is a FormState: the monitored inputs in document order, the
 * error label of each input (the element whose id is `<input id>-error`),
 * and the submit button. Every helper of the source that changes the page
 * is a function from the old FormState to the new one; the class-based
 * model in module Validation updates its arrays in place and is proved to
 * agree with these functions.
 *
 * The browser's constraint validation (`validity.valid`,
 * `validity.patternMismatch`, `validationMessage`) is not computed here:
 * those are opaque per-input values that the Edit step may set arbitrarily.
 */
module ValidationModel {

  datatype Option<T> = None | Some(value: T)

  /** The characters `classList.add` / `classList.remove` refuse in a token. */
  predicate IsAsciiWhitespace(c: char)
  {
    c == ' ' || c == '\t' || c == '\n' || c == '\r' || c == '\U{000C}'
  }

  /**
   * A CSS class token the DOM accepts: `classList.add("")` and a token
   * with whitespace throw, so the configured class names are non-empty
   * and free of whitespace.
   */
  type ClassName = s: string | s != "" && forall k :: 0 <= k < |s| ==> !IsAsciiWhitespace(s[k])
    witness "x"

  /** The class names of the validation settings object (selectors are not modelled). */
  datatype Settings = Settings(
    inactiveButtonClass: ClassName,
    inputErrorClass: ClassName,
    errorClass: ClassName)

  /** The part of the browser's `ValidityState` the helper reads. */
  datatype Validity = Validity(valid: bool, patternMismatch: bool)

  /**
   * An input element: its id, the browser's validity and default message,
   * the custom message of its `data-error-message` attribute (None when
   * the attribute is absent, so that `dataset.errorMessage` is undefined),
   * and its class list.
   */
  datatype InputField = InputField(
    id: string,
    validity: Validity,
    errorMessage: Option<string>,
    validationMessage: string,
    classes: set<string>)

  /** The error element shown next to an input: its id, text content and class list. */
  datatype ErrorLabel = ErrorLabel(id: string, text: string, classes: set<string>)

  /** The submit button: its `disabled` property and class list. */
  datatype ButtonState = ButtonState(disabled: bool, classes: set<string>)

  datatype FormState = FormState(inputs: seq<InputField>, errors: seq<ErrorLabel>, button: ButtonState)

  // ---------------------------------------------------------------------
  // Locating the error label of an input
  // ---------------------------------------------------------------------

  /**
   * The id the source looks up for the error element of an input: the
   * input's id followed by "-error", from which the input's id can be read
   * back.
   */
  function ErrorId(inputId: string): (r: string)
    ensures |r| == |inputId| + 6
    ensures r[..|inputId|] == inputId && r[|inputId|..] == "-error"
  {
    inputId + "-error"
  }

  lemma ErrorIdInjective(a: string, b: string)
    ensures ErrorId(a) == ErrorId(b) ==> a == b
  {
    if ErrorId(a) == ErrorId(b) {
      assert |a| == |b|;
      assert a == ErrorId(a)[..|a|];
      assert b == ErrorId(b)[..|b|];
    }
  }

  predicate IsAsciiLetter(c: char)
  {
    'a' <= c <= 'z' || 'A' <= c <= 'Z'
  }

  predicate IsDigit(c: char)
  {
    '0' <= c <= '9'
  }

  /** A character that may start a CSS name: a letter, `_`, or any non-ASCII character. */
  predicate IsNameStart(c: char)
  {
    IsAsciiLetter(c) || c == '_' || c >= '\U{0080}'
  }

  predicate IsNameChar(c: char)
  {
    IsNameStart(c) || IsDigit(c) || c == '-'
  }

  predicate AllNameChars(s: string)
  {
    forall k :: 0 <= k < |s| ==> IsNameChar(s[k])
  }

  /**
   * An identifier of CSS Syntax Level 3 (section 4.3.9) written without
   * escapes: `#` followed by such a string is a plain id selector.
   */
  predicate IsCssIdentifier(s: string)
  {
    |s| > 0 && AllNameChars(s) &&
    (IsNameStart(s[0]) || (s[0] == '-' && |s| > 1 && (s[1] == '-' || IsNameStart(s[1]))))
  }

  /**
   * The page structure the helper relies on:
   * - one error label per input, label k carrying the id `<id of input k>-error`;
   * - that id is a CSS identifier, so that `#<id of input k>-error` selects
   *   by id alone (an id such as `a.b` or `1st` would not);
   * - ids are unique in an HTML document: input ids are distinct, and no
   *   input carries the id of a label.
   */
  predicate WellFormed(inputs: seq<InputField>, errors: seq<ErrorLabel>)
  {
    |inputs| == |errors| &&
    (forall k :: 0 <= k < |errors| ==>
       LabelId(errors, k) == ErrorId(InputId(inputs, k)) && IsCssIdentifier(LabelId(errors, k))) &&
    (forall j, k :: 0 <= j < k < |inputs| ==> InputId(inputs, j) != InputId(inputs, k)) &&
    (forall j, k :: 0 <= j < |errors| && 0 <= k < |inputs| ==> LabelId(errors, j) != InputId(inputs, k))
  }

  function InputId(inputs: seq<InputField>, k: nat): string
    requires k < |inputs|
  {
    inputs[k].id
  }

  function LabelId(errors: seq<ErrorLabel>, k: nat): string
    requires k < |errors|
  {
    errors[k].id
  }

  /** Well-formedness is about ids only: a page with the same ids is well formed too. */
  lemma SameIdsWellFormed(inputs: seq<InputField>, errors: seq<ErrorLabel>,
                          inputs': seq<InputField>, errors': seq<ErrorLabel>)
    requires WellFormed(inputs, errors)
    requires |inputs'| == |inputs| && |errors'| == |errors|
    requires forall k :: 0 <= k < |inputs| ==> inputs'[k].id == inputs[k].id
    requires forall k :: 0 <= k < |errors| ==> errors'[k].id == errors[k].id
    ensures WellFormed(inputs', errors')
  {
    forall k | 0 <= k < |errors'|
      ensures LabelId(errors', k) == ErrorId(InputId(inputs', k)) && IsCssIdentifier(LabelId(errors', k))
    {
      assert LabelId(errors, k) == ErrorId(InputId(inputs, k)) && IsCssIdentifier(LabelId(errors, k));
    }
    forall j, k | 0 <= j < k < |inputs'| ensures InputId(inputs', j) != InputId(inputs', k) {
      assert InputId(inputs, j) != InputId(inputs, k);
    }
    forall j, k | 0 <= j < |errors'| && 0 <= k < |inputs'| ensures LabelId(errors', j) != InputId(inputs', k) {
      assert LabelId(errors, j) != InputId(inputs, k);
    }
  }

  /**
   * `formElement.querySelector('#' + id)` for an id that is a CSS
   * identifier, over the labels of the form: the first label, in document
   * order, whose id is `id`. In a well-formed form no input carries a
   * label's id, so no input can be found.
   */
  function FindLabel(errors: seq<ErrorLabel>, id: string): (r: Option<nat>)
    ensures r.Some? ==> r.value < |errors| && errors[r.value].id == id
    ensures r.Some? ==> forall k :: 0 <= k < r.value ==> errors[k].id != id
    ensures r.None? <==> forall k :: 0 <= k < |errors| ==> errors[k].id != id
  {
    if errors == [] then None
    else if errors[0].id == id then Some(0)
    else match FindLabel(errors[1..], id)
      case None => None
      case Some(k) => Some(k + 1)
  }

  /** In a well-formed form the label the source looks up for input i is label i. */
  lemma LabelOfInput(inputs: seq<InputField>, errors: seq<ErrorLabel>, i: nat)
    requires WellFormed(inputs, errors) && i < |inputs|
    ensures FindLabel(errors, ErrorId(inputs[i].id)) == Some(i)
  {
    var r := FindLabel(errors, ErrorId(inputs[i].id));
    assert r.Some? by {
      assert LabelId(errors, i) == ErrorId(InputId(inputs, i));
    }
    var j := r.value;
    assert LabelId(errors, j) == ErrorId(InputId(inputs, j));
    ErrorIdInjective(inputs[j].id, inputs[i].id);
    assert InputId(inputs, j) == InputId(inputs, i);
  }

  // ---------------------------------------------------------------------
  // Class-list edits
  // ---------------------------------------------------------------------

  /** `after` is the class list `before` after `classList.add(c)`: c present, no other class touched. */
  predicate AddsOnly(before: set<string>, after: set<string>, c: string)
  {
    after == before + {c}
  }

  /** `after` is the class list `before` after `classList.remove(c)`: c absent, no other class touched. */
  predicate RemovesOnly(before: set<string>, after: set<string>, c: string)
  {
    after == before - {c}
  }

  /** Input and label j are the same in both states. */
  predicate SameAt(st: FormState, r: FormState, j: nat)
    requires j < |st.inputs| && j < |st.errors| && j < |r.inputs| && j < |r.errors|
  {
    r.inputs[j] == st.inputs[j] && r.errors[j] == st.errors[j]
  }

  /**
   * Only input i and label i may differ between st and r: same length,
   * same button, every other input and label equal.
   */
  predicate OnlyTouches(st: FormState, r: FormState, i: nat)
  {
    |r.inputs| == |st.inputs| && |r.errors| == |st.errors| &&
    |st.inputs| == |st.errors| && i < |st.inputs| &&
    r.button == st.button &&
    forall j :: 0 <= j < |st.inputs| && j != i ==> SameAt(st, r, j)
  }

  /**
   * Input `after` and label `afterLabel` are `before` and `beforeLabel`
   * with the error shown with text msg: the input gains inputErrorClass,
   * the label errorClass and the text, and nothing else about them changes.
   */
  predicate Shown(before: InputField, beforeLabel: ErrorLabel, after: InputField, afterLabel: ErrorLabel,
                  msg: string, s: Settings)
  {
    after == before.(classes := after.classes) &&
    AddsOnly(before.classes, after.classes, s.inputErrorClass) &&
    afterLabel == beforeLabel.(text := msg, classes := afterLabel.classes) &&
    AddsOnly(beforeLabel.classes, afterLabel.classes, s.errorClass)
  }

  /**
   * Input `after` and label `afterLabel` are `before` and `beforeLabel`
   * with the error hidden: both error classes gone, the text empty,
   * nothing else about them changed.
   */
  predicate Hidden(before: InputField, beforeLabel: ErrorLabel, after: InputField, afterLabel: ErrorLabel,
                   s: Settings)
  {
    after == before.(classes := after.classes) &&
    RemovesOnly(before.classes, after.classes, s.inputErrorClass) &&
    afterLabel == beforeLabel.(text := "", classes := afterLabel.classes) &&
    RemovesOnly(beforeLabel.classes, afterLabel.classes, s.errorClass)
  }

  // ---------------------------------------------------------------------
  // showInputError / hideInputError
  // ---------------------------------------------------------------------

  function ShowInputError(st: FormState, i: nat, msg: string, s: Settings): (r: FormState)
    requires WellFormed(st.inputs, st.errors) && i < |st.inputs|
    ensures WellFormed(r.inputs, r.errors)
    ensures OnlyTouches(st, r, i)
    ensures Shown(st.inputs[i], st.errors[i], r.inputs[i], r.errors[i], msg, s)
    ensures r.errors[i].text == msg
    ensures s.inputErrorClass in r.inputs[i].classes && s.errorClass in r.errors[i].classes
  {
    var input := st.inputs[i];
    var errorLabel := st.errors[i];
    var r := st.(inputs := st.inputs[i := input.(classes := input.classes + {s.inputErrorClass})],
                 errors := st.errors[i := errorLabel.(text := msg, classes := errorLabel.classes + {s.errorClass})]);
    SameIdsWellFormed(st.inputs, st.errors, r.inputs, r.errors);
    r
  }

  function HideInputError(st: FormState, i: nat, s: Settings): (r: FormState)
    requires WellFormed(st.inputs, st.errors) && i < |st.inputs|
    ensures WellFormed(r.inputs, r.errors)
    ensures OnlyTouches(st, r, i)
    ensures Hidden(st.inputs[i], st.errors[i], r.inputs[i], r.errors[i], s)
    ensures r.errors[i].text == ""
    ensures s.inputErrorClass !in r.inputs[i].classes && s.errorClass !in r.errors[i].classes
  {
    var input := st.inputs[i];
    var errorLabel := st.errors[i];
    var r := st.(inputs := st.inputs[i := input.(classes := input.classes - {s.inputErrorClass})],
                 errors := st.errors[i := errorLabel.(text := "", classes := errorLabel.classes - {s.errorClass})]);
    SameIdsWellFormed(st.inputs, st.errors, r.inputs, r.errors);
    r
  }

  /** Hiding an error twice is the same as hiding it once. */
  lemma HideInputErrorIdempotent(st: FormState, i: nat, s: Settings)
    requires WellFormed(st.inputs, st.errors) && i < |st.inputs|
    ensures HideInputError(HideInputError(st, i, s), i, s) == HideInputError(st, i, s)
  {
    var once := HideInputError(st, i, s);
    var twice := HideInputError(once, i, s);
    assert twice.inputs[i].classes == once.inputs[i].classes;
    assert twice.errors[i].classes == once.errors[i].classes;
    assert twice.inputs == once.inputs;
    assert twice.errors == once.errors;
  }

  /** Hiding an error erases every trace of having shown one. */
  lemma HideAfterShow(st: FormState, i: nat, msg: string, s: Settings)
    requires WellFormed(st.inputs, st.errors) && i < |st.inputs|
    ensures HideInputError(ShowInputError(st, i, msg, s), i, s) == HideInputError(st, i, s)
  {
    var direct := HideInputError(st, i, s);
    var via := HideInputError(ShowInputError(st, i, msg, s), i, s);
    assert via.inputs[i].classes == direct.inputs[i].classes;
    assert via.errors[i].classes == direct.errors[i].classes;
    assert via.inputs == direct.inputs;
    assert via.errors == direct.errors;
  }

  // ---------------------------------------------------------------------
  // checkInputValidity
  // ---------------------------------------------------------------------

  /**
   * JavaScript `a || b` where `a` is a string or undefined: `a` when it is
   * a non-empty string, the fallback `b` when it is undefined or empty.
   */
  function OrElse(a: Option<string>, b: string): (r: string)
    ensures a.Some? && a.value != "" ==> r == a.value
    ensures a.None? || a.value == "" ==> r == b
    ensures r == "" <==> (a.None? || a.value == "") && b == ""
  {
    match a
    case Some(m) => if m != "" then m else b
    case None => b
  }

  /** The error display of input i agrees with its validity. */
  predicate ShowsValidity(st: FormState, i: nat, s: Settings)
    requires i < |st.inputs| && i < |st.errors|
  {
    var invalid := !st.inputs[i].validity.valid;
    (s.inputErrorClass in st.inputs[i].classes <==> invalid) &&
    (s.errorClass in st.errors[i].classes <==> invalid) &&
    (!invalid ==> st.errors[i].text == "")
  }

  /** True when the input has a usable custom message for a pattern mismatch. */
  predicate HasCustomMessage(f: InputField)
  {
    f.errorMessage.Some? && f.errorMessage.value != ""
  }

  function CheckInputValidity(st: FormState, i: nat, s: Settings): (r: FormState)
    requires WellFormed(st.inputs, st.errors) && i < |st.inputs|
    ensures WellFormed(r.inputs, r.errors)
    ensures OnlyTouches(st, r, i)
    ensures r.inputs[i].validity == st.inputs[i].validity
    ensures ShowsValidity(r, i, s)
    // a valid input has its error hidden
    ensures st.inputs[i].validity.valid ==> r == HideInputError(st, i, s)
    // a pattern mismatch shows the custom message when there is one
    ensures !st.inputs[i].validity.valid && st.inputs[i].validity.patternMismatch &&
            HasCustomMessage(st.inputs[i]) ==>
              r == ShowInputError(st, i, st.inputs[i].errorMessage.value, s)
    // otherwise an invalid input shows the browser's message
    ensures !st.inputs[i].validity.valid &&
            (!st.inputs[i].validity.patternMismatch || !HasCustomMessage(st.inputs[i])) ==>
              r == ShowInputError(st, i, st.inputs[i].validationMessage, s)
    // the shown text is non-empty whenever the browser's message is
    ensures !st.inputs[i].validity.valid && st.inputs[i].validationMessage != "" ==>
              r.errors[i].text != ""
  {
    var input := st.inputs[i];
    if !input.validity.valid then
      if input.validity.patternMismatch then
        ShowInputError(st, i, OrElse(input.errorMessage, input.validationMessage), s)
      else
        ShowInputError(st, i, input.validationMessage, s)
    else
      HideInputError(st, i, s)
  }

  // ---------------------------------------------------------------------
  // hasInvalidInput and the submit button
  // ---------------------------------------------------------------------

  /** `inputList.some(input => !input.validity.valid)`. */
  function HasInvalidInput(inputs: seq<InputField>): (r: bool)
    ensures r <==> exists k :: 0 <= k < |inputs| && !inputs[k].validity.valid
  {
    if inputs == [] then false
    else !inputs[0].validity.valid || HasInvalidInput(inputs[1..])
  }

  function DisableSubmitButton(b: ButtonState, s: Settings): (r: ButtonState)
    ensures r.disabled
    ensures AddsOnly(b.classes, r.classes, s.inactiveButtonClass)
  {
    ButtonState(true, b.classes + {s.inactiveButtonClass})
  }

  function EnableSubmitButton(b: ButtonState, s: Settings): (r: ButtonState)
    ensures !r.disabled
    ensures RemovesOnly(b.classes, r.classes, s.inactiveButtonClass)
  {
    ButtonState(false, b.classes - {s.inactiveButtonClass})
  }

  /**
   * The button reflects the form: disabled exactly when some input is
   * invalid, and carrying the inactive class exactly when disabled.
   */
  predicate ButtonReflects(st: FormState, s: Settings)
  {
    st.button.disabled == HasInvalidInput(st.inputs) &&
    (s.inactiveButtonClass in st.button.classes <==> st.button.disabled)
  }

  function ToggleButtonState(inputs: seq<InputField>, b: ButtonState, s: Settings): (r: ButtonState)
    ensures r.disabled <==> exists k :: 0 <= k < |inputs| && !inputs[k].validity.valid
    ensures s.inactiveButtonClass in r.classes <==> r.disabled
    ensures forall x :: x != s.inactiveButtonClass ==> (x in r.classes <==> x in b.classes)
  {
    if HasInvalidInput(inputs) then DisableSubmitButton(b, s) else EnableSubmitButton(b, s)
  }

  /** A form with no monitored inputs gets an enabled button. */
  lemma EmptyFormEnablesButton(b: ButtonState, s: Settings)
    ensures !ToggleButtonState([], b, s).disabled
    ensures s.inactiveButtonClass !in ToggleButtonState([], b, s).classes
  {
  }

  // ---------------------------------------------------------------------
  // setEventListeners: the initial toggle and the per-input handler
  // ---------------------------------------------------------------------

  /** What setEventListeners does to the page before any event: the initial toggleButtonState. */
  function SetEventListeners(st: FormState, s: Settings): (r: FormState)
    ensures r.inputs == st.inputs && r.errors == st.errors
    ensures ButtonReflects(r, s)
  {
    st.(button := ToggleButtonState(st.inputs, st.button, s))
  }

  /** The body of the "input" listener of input i: checkInputValidity, then toggleButtonState. */
  function OnInput(st: FormState, i: nat, s: Settings): (r: FormState)
    requires WellFormed(st.inputs, st.errors) && i < |st.inputs|
    ensures WellFormed(r.inputs, r.errors)
    ensures |r.inputs| == |st.inputs|
    ensures forall j :: 0 <= j < |st.inputs| ==> r.inputs[j].validity == st.inputs[j].validity
    ensures forall j :: 0 <= j < |st.inputs| && j != i ==> SameAt(st, r, j)
    ensures r.inputs[i] == st.inputs[i].(classes := r.inputs[i].classes)
    ensures ShowsValidity(r, i, s)
    ensures ButtonReflects(r, s)
  {
    var checked := CheckInputValidity(st, i, s);
    checked.(button := ToggleButtonState(checked.inputs, checked.button, s))
  }

  /**
   * The browser's side of a user edit of input i: new validity and
   * default message; the id, custom message and classes stay.
   */
  function Edit(st: FormState, i: nat, v: Validity, message: string): (r: FormState)
    requires WellFormed(st.inputs, st.errors) && i < |st.inputs|
    ensures WellFormed(r.inputs, r.errors)
    ensures OnlyTouches(st, r, i) && r.errors == st.errors
    ensures r.inputs[i] == st.inputs[i].(validity := v, validationMessage := message)
  {
    var r := st.(inputs := st.inputs[i := st.inputs[i].(validity := v, validationMessage := message)]);
    SameIdsWellFormed(st.inputs, st.errors, r.inputs, r.errors);
    r
  }

  /** A user edit of one input, followed by the "input" event it fires. */
  datatype Keystroke = Keystroke(input: nat, validity: Validity, message: string)

  predicate KeystrokesFit(keys: seq<Keystroke>, n: nat)
  {
    forall k :: 0 <= k < |keys| ==> keys[k].input < n
  }

  /** The form after a sequence of user edits, each followed by its input event. */
  function Replay(st: FormState, keys: seq<Keystroke>, s: Settings): (r: FormState)
    requires WellFormed(st.inputs, st.errors) && KeystrokesFit(keys, |st.inputs|)
    ensures WellFormed(r.inputs, r.errors) && |r.inputs| == |st.inputs|
    decreases |keys|
  {
    if keys == [] then st
    else
      var key := keys[0];
      var edited := Edit(st, key.input, key.validity, key.message);
      Replay(OnInput(edited, key.input, s), keys[1..], s)
  }

  predicate Touched(keys: seq<Keystroke>, j: nat)
  {
    exists k :: 0 <= k < |keys| && keys[k].input == j
  }

  /**
   * After any non-empty run of keystrokes the button reflects the form,
   * every input the user touched displays its own validity, and every
   * input the user never touched is exactly as it was.
   */
  lemma TouchedCons(keys: seq<Keystroke>, j: nat)
    requires keys != []
    ensures Touched(keys, j) <==> keys[0].input == j || Touched(keys[1..], j)
  {
  }

  lemma {:induction false} ReplayReflects(st: FormState, keys: seq<Keystroke>, s: Settings)
    requires WellFormed(st.inputs, st.errors) && KeystrokesFit(keys, |st.inputs|)
    ensures keys != [] ==> ButtonReflects(Replay(st, keys, s), s)
    ensures forall j :: 0 <= j < |st.inputs| && Touched(keys, j) ==> ShowsValidity(Replay(st, keys, s), j, s)
    ensures forall j :: 0 <= j < |st.inputs| && !Touched(keys, j) ==> SameAt(st, Replay(st, keys, s), j)
    decreases |keys|
  {
    if keys != [] {
      var key := keys[0];
      var next := OnInput(Edit(st, key.input, key.validity, key.message), key.input, s);
      var rest := keys[1..];
      assert KeystrokesFit(rest, |next.inputs|) by {
        forall k | 0 <= k < |rest| ensures rest[k].input < |next.inputs| {
          assert rest[k] == keys[k + 1];
        }
      }
      ReplayReflects(next, rest, s);
      var r := Replay(st, keys, s);
      assert r == Replay(next, rest, s);
      forall j | 0 <= j < |st.inputs| && Touched(keys, j)
        ensures ShowsValidity(r, j, s)
      {
        TouchedCons(keys, j);
        if !Touched(rest, j) {
          assert SameAt(next, r, j);
        }
      }
      forall j | 0 <= j < |st.inputs| && !Touched(keys, j)
        ensures SameAt(st, r, j)
      {
        TouchedCons(keys, j);
        assert SameAt(next, r, j);
      }
    }
  }

  // ---------------------------------------------------------------------
  // clearValidation
  // ---------------------------------------------------------------------

  /**
   * hideInputError applied, in order, to inputs 0 .. n-1 (the forEach of
   * clearValidation): the page stays well formed, no input gains or loses
   * an element, no validity changes and the button is not touched.
   * HideFirstHides states what it hides.
   */
  function HideFirst(st: FormState, n: nat, s: Settings): (r: FormState)
    requires WellFormed(st.inputs, st.errors) && n <= |st.inputs|
    ensures WellFormed(r.inputs, r.errors)
    ensures |r.inputs| == |st.inputs| && r.button == st.button
    ensures forall j :: 0 <= j < |st.inputs| ==> r.inputs[j].validity == st.inputs[j].validity
  {
    if n == 0 then st else HideInputError(HideFirst(st, n - 1, s), n - 1, s)
  }

  /** After the first n steps of the forEach, errors 0 .. n-1 are hidden and the rest untouched. */
  lemma {:induction false} HideFirstHides(st: FormState, n: nat, s: Settings)
    requires WellFormed(st.inputs, st.errors) && n <= |st.inputs|
    ensures forall j :: 0 <= j < n ==> Hidden(st.inputs[j], st.errors[j], HideFirst(st, n, s).inputs[j], HideFirst(st, n, s).errors[j], s)
    ensures forall j :: n <= j < |st.inputs| ==> SameAt(st, HideFirst(st, n, s), j)
  {
    if n > 0 {
      HideFirstHides(st, n - 1, s);
      var mid := HideFirst(st, n - 1, s);
      var r := HideFirst(st, n, s);
      assert r == HideInputError(mid, n - 1, s);
      forall j | 0 <= j < n ensures Hidden(st.inputs[j], st.errors[j], r.inputs[j], r.errors[j], s) {
        if j < n - 1 {
          assert Hidden(st.inputs[j], st.errors[j], mid.inputs[j], mid.errors[j], s) && SameAt(mid, r, j);
        } else {
          assert SameAt(st, mid, j) && Hidden(mid.inputs[j], mid.errors[j], r.inputs[j], r.errors[j], s);
        }
      }
      forall j | n <= j < |st.inputs| ensures SameAt(st, r, j) {
        assert SameAt(st, mid, j) && SameAt(mid, r, j);
      }
    }
  }

  function ClearValidation(st: FormState, s: Settings): (r: FormState)
    requires WellFormed(st.inputs, st.errors)
    ensures WellFormed(r.inputs, r.errors) && |r.inputs| == |st.inputs|
    ensures forall j :: 0 <= j < |st.inputs| ==> Hidden(st.inputs[j], st.errors[j], r.inputs[j], r.errors[j], s)
    ensures r.button.disabled
    ensures AddsOnly(st.button.classes, r.button.classes, s.inactiveButtonClass)
  {
    HideFirstHides(st, |st.inputs|, s);
    var hidden := HideFirst(st, |st.inputs|, s);
    hidden.(button := DisableSubmitButton(hidden.button, s))
  }

  /**
   * Hidden fixes the hidden input and label completely, so two
   * states that both hide every error of st have the same inputs and labels.
   */
  lemma HiddenDetermines(st: FormState, a: FormState, b: FormState, s: Settings)
    requires |a.inputs| == |b.inputs| == |st.inputs| == |a.errors| == |b.errors| == |st.errors|
    requires forall j :: 0 <= j < |st.inputs| ==> Hidden(st.inputs[j], st.errors[j], a.inputs[j], a.errors[j], s) && Hidden(st.inputs[j], st.errors[j], b.inputs[j], b.errors[j], s)
    ensures a.inputs == b.inputs && a.errors == b.errors
  {
  }

  /** Resetting twice is the same as resetting once. */
  lemma ClearValidationIdempotent(st: FormState, s: Settings)
    requires WellFormed(st.inputs, st.errors)
    ensures ClearValidation(ClearValidation(st, s), s) == ClearValidation(st, s)
  {
    var once := ClearValidation(st, s);
    var twice := ClearValidation(once, s);
    forall j | 0 <= j < |st.inputs| ensures Hidden(st.inputs[j], st.errors[j], twice.inputs[j], twice.errors[j], s) {
      assert Hidden(st.inputs[j], st.errors[j], once.inputs[j], once.errors[j], s) && Hidden(once.inputs[j], once.errors[j], twice.inputs[j], twice.errors[j], s);
    }
    HiddenDetermines(st, once, twice, s);
  }

  /**
   * The reset does not look at validity: a form whose inputs are all valid
   * (a profile form pre-filled with the current values) is left with a
   * disabled button, so "disabled iff some input is invalid" does not hold
   * again until the first input event.
   */
  lemma ClearValidationDisablesValidForm(st: FormState, s: Settings)
    requires WellFormed(st.inputs, st.errors)
    requires forall k :: 0 <= k < |st.inputs| ==> st.inputs[k].validity.valid
    ensures ClearValidation(st, s).button.disabled
    ensures !ButtonReflects(ClearValidation(st, s), s)
  {
  }

}
