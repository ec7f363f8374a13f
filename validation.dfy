/**
 * The form-validation helper of src/scripts/components/validation.js as
 * objects that change in place: the submit button is a SubmitButton, and
 * a Form holds the monitored inputs and their error labels in arrays. Each
 * method does, step by step, what the source function does to the page, and
 * its postcondition ties the new state to the matching function of module
 * ValidationModel, whose properties are proved there.
 */
module Validation {
  import M = ValidationModel

  class SubmitButton {
    var disabled: bool
    var classes: set<string>

    constructor (disabled: bool, classes: set<string>)
      ensures State() == M.ButtonState(disabled, classes)
    {
      this.disabled := disabled;
      this.classes := classes;
    }

    function State(): M.ButtonState
      reads this
    {
      M.ButtonState(disabled, classes)
    }

    /** disableSubmitButton: add the inactive class, then set `disabled`. */
    method Disable(s: M.Settings)
      modifies this
      ensures State() == M.DisableSubmitButton(old(State()), s)
    {
      classes := classes + {s.inactiveButtonClass};
      disabled := true;
    }

    /** enableSubmitButton: remove the inactive class, then clear `disabled`. */
    method Enable(s: M.Settings)
      modifies this
      ensures State() == M.EnableSubmitButton(old(State()), s)
    {
      classes := classes - {s.inactiveButtonClass};
      disabled := false;
    }
  }

  /** One form: its monitored inputs in document order, their error labels and its submit button. */
  class Form {
    const inputs: array<M.InputField>
    const errors: array<M.ErrorLabel>
    const button: SubmitButton

    ghost function State(): M.FormState
      reads inputs, errors, button
    {
      M.FormState(inputs[..], errors[..], button.State())
    }

    /** Every input has its error label, found by the id `<input id>-error`. */
    ghost predicate Valid()
      reads inputs, errors
    {
      M.WellFormed(inputs[..], errors[..])
    }

    constructor (fields: seq<M.InputField>, labels: seq<M.ErrorLabel>, button: SubmitButton)
      requires M.WellFormed(fields, labels)
      ensures Valid() && fresh(inputs) && fresh(errors) && this.button == button
      ensures State() == M.FormState(fields, labels, button.State())
    {
      inputs := new M.InputField[|fields|](k requires 0 <= k < |fields| => fields[k]);
      errors := new M.ErrorLabel[|labels|](k requires 0 <= k < |labels| => labels[k]);
      this.button := button;
      new;
      assert inputs[..] == fields && errors[..] == labels;
    }

    /** The index of the error label the source finds for input i. */
    method LabelIndex(i: nat) returns (e: nat)
      requires Valid() && i < inputs.Length
      ensures e == i
    {
      M.LabelOfInput(inputs[..], errors[..], i);
      e := M.FindLabel(errors[..], M.ErrorId(inputs[i].id)).value;
    }

    /** showInputError: mark input i invalid and show msg in its label. */
    method ShowInputError(i: nat, msg: string, s: M.Settings)
      requires Valid() && i < inputs.Length
      modifies inputs, errors
      ensures Valid()
      ensures State() == M.ShowInputError(old(State()), i, msg, s)
    {
      var e := LabelIndex(i);
      inputs[i] := inputs[i].(classes := inputs[i].classes + {s.inputErrorClass});
      errors[e] := errors[e].(text := msg);
      errors[e] := errors[e].(classes := errors[e].classes + {s.errorClass});
    }

    /** hideInputError: clear the error mark of input i and empty its label. */
    method HideInputError(i: nat, s: M.Settings)
      requires Valid() && i < inputs.Length
      modifies inputs, errors
      ensures Valid()
      ensures State() == M.HideInputError(old(State()), i, s)
    {
      var e := LabelIndex(i);
      inputs[i] := inputs[i].(classes := inputs[i].classes - {s.inputErrorClass});
      errors[e] := errors[e].(text := "");
      errors[e] := errors[e].(classes := errors[e].classes - {s.errorClass});
    }

    /** checkInputValidity: show the right message for an invalid input, hide the error of a valid one. */
    method CheckInputValidity(i: nat, s: M.Settings)
      requires Valid() && i < inputs.Length
      modifies inputs, errors
      ensures Valid()
      ensures State() == M.CheckInputValidity(old(State()), i, s)
    {
      var input := inputs[i];
      if !input.validity.valid {
        if input.validity.patternMismatch {
          var customMessage := input.errorMessage;
          ShowInputError(i, M.OrElse(customMessage, input.validationMessage), s);
        } else {
          ShowInputError(i, input.validationMessage, s);
        }
      } else {
        HideInputError(i, s);
      }
    }

    /** toggleButtonState: disable the button when some input is invalid, enable it otherwise. */
    method ToggleButtonState(s: M.Settings)
      modifies button
      ensures button.State() == M.ToggleButtonState(inputs[..], old(button.State()), s)
      ensures M.ButtonReflects(State(), s)
    {
      if M.HasInvalidInput(inputs[..]) {
        button.Disable(s);
      } else {
        button.Enable(s);
      }
    }

    /** What setEventListeners does before any event: the initial toggleButtonState. */
    method SetEventListeners(s: M.Settings)
      modifies button
      ensures State() == M.SetEventListeners(old(State()), s)
    {
      ToggleButtonState(s);
    }

    /** The "input" listener of input i. */
    method OnInput(i: nat, s: M.Settings)
      requires Valid() && i < inputs.Length
      modifies inputs, errors, button
      ensures Valid()
      ensures State() == M.OnInput(old(State()), i, s)
    {
      CheckInputValidity(i, s);
      ToggleButtonState(s);
    }

    /** The forEach of clearValidation: hideInputError on every input in turn. */
    method HideAllErrors(s: M.Settings)
      requires Valid()
      modifies inputs, errors
      ensures Valid()
      ensures State() == M.HideFirst(old(State()), inputs.Length, s)
    {
      for k := 0 to inputs.Length
        invariant State() == M.HideFirst(old(State()), k, s)
      {
        HideInputError(k, s);
      }
    }

    /** clearValidation: hide every error, then disable the button. */
    method ClearValidation(s: M.Settings)
      requires Valid()
      modifies inputs, errors, button
      ensures Valid()
      ensures State() == M.ClearValidation(old(State()), s)
    {
      HideAllErrors(s);
      button.Disable(s);
    }

    /**
     * The browser's side of a user edit of input i: it re-evaluates the
     * input's constraints, giving it a new validity and default message.
     */
    method BrowserEdit(i: nat, v: M.Validity, message: string)
      requires Valid() && i < inputs.Length
      modifies inputs
      ensures Valid()
      ensures State() == M.Edit(old(State()), i, v, message)
    {
      inputs[i] := inputs[i].(validity := v, validationMessage := message);
    }
  }

  /**
   * enableValidation: set up every form of the page. Forms cannot nest in
   * HTML, so the buttons of different forms are different elements.
   */
  method EnableValidation(forms: seq<Form>, s: M.Settings)
    requires forall j, k :: 0 <= j < k < |forms| ==> forms[j].button != forms[k].button
    modifies set f | f in forms :: f.button
    ensures forall k :: 0 <= k < |forms| ==> forms[k].State() == M.SetEventListeners(old(forms[k].State()), s)
  {
    for n := 0 to |forms|
      invariant forall k :: 0 <= k < n ==> forms[k].State() == M.SetEventListeners(old(forms[k].State()), s)
      invariant forall k :: n <= k < |forms| ==> forms[k].State() == old(forms[k].State())
    {
      forms[n].SetEventListeners(s);
    }
  }

  /**
   * A form with one name input that carries a pattern and the custom message
   * "Letters only", its label `name-error` and its submit button, after
   * setup. The class names are those the page configures.
   */
  method NameForm(s: M.Settings) returns (form: Form)
    requires s == M.Settings("popup__button_disabled", "popup__input_type_error", "popup__error_visible")
    ensures fresh(form) && fresh(form.inputs) && fresh(form.errors) && fresh(form.button)
    ensures form.Valid() && form.inputs.Length == 1
    ensures form.inputs[0] == M.InputField("name", M.Validity(true, false), M.Some("Letters only"), "", {"popup__input"})
    ensures form.errors[0] == M.ErrorLabel("name-error", "", {"popup__error"})
    ensures !form.button.disabled && form.button.classes == {"popup__button"}
  {
    var name := M.InputField("name", M.Validity(true, false), M.Some("Letters only"), "", {"popup__input"});
    var nameError := M.ErrorLabel("name-error", "", {"popup__error"});
    var button := new SubmitButton(false, {"popup__button"});
    form := new Form([name], [nameError], button);
    form.SetEventListeners(s);
  }

  /**
   * Typing a digit into the name field shows the custom message and
   * disables the button; a valid value then hides the error and enables the
   * button, and reopening the form disables it again.
   */
  method LettersOnlyExample()
  {
    var s := M.Settings("popup__button_disabled", "popup__input_type_error", "popup__error_visible");
    var form := NameForm(s);
    assert form.errors[0].text == "" && !form.button.disabled;

    form.BrowserEdit(0, M.Validity(false, true), "Please match the requested format.");
    form.OnInput(0, s);
    assert form.errors[0].text == "Letters only";
    assert form.button.disabled && "popup__button_disabled" in form.button.classes;

    form.BrowserEdit(0, M.Validity(true, false), "");
    form.OnInput(0, s);
    assert form.errors[0].text == "" && "popup__error_visible" !in form.errors[0].classes;
    assert !form.button.disabled;

    form.ClearValidation(s);
    assert form.button.disabled;
    assert form.errors[0].text == "" && "popup__error_visible" !in form.errors[0].classes;
  }

  /**
   * Emptying the required name field is not a pattern mismatch: the label
   * shows the browser's message, not the custom one, and the button is
   * disabled.
   */
  method EmptiedFieldExample()
  {
    var s := M.Settings("popup__button_disabled", "popup__input_type_error", "popup__error_visible");
    var form := NameForm(s);
    form.BrowserEdit(0, M.Validity(false, false), "Please fill out this field.");
    form.OnInput(0, s);
    assert form.errors[0].text == "Please fill out this field.";
    assert form.button.disabled;
  }
}
