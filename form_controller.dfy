/** The sign-up form's script as it runs: the global `formData` and
    `formSubmitted`, the inline display of the two views, the deferred
    submissions, and the form's controls, updated in place by the handlers.
    Every handler is proved to move `State()` exactly as the matching
    function of FormSpec does, so the lemmas there apply to it. */
module FormController {
  import opened Whitespace
  import opened FormSpec

  class SignupForm {
    var formData: map<string, Value>
    var formSubmitted: bool
    var formShown: bool
    var successShown: bool
    var pending: nat
    const controls: array<Control>
    const consent: Option<nat>

    ghost predicate Valid()
      reads this
    {
      consent.Some? ==> consent.value < controls.Length
    }

    ghost function State(): (p: Page)
      reads this, controls
      requires Valid()
      ensures WellFormed(p)
    {
      Page(formData, formSubmitted, formShown, successShown, pending, controls[..], consent)
    }

    /** The page once loaded: `formData` at its defaults, nothing submitted,
        the form displayed, over the given controls. */
    constructor (cs: seq<Control>, consentAt: Option<nat>)
      requires ConsentInRange(cs, consentAt)
      ensures Valid() && fresh(controls)
      ensures State() == Initial(cs, consentAt)
    {
      formSubmitted := false;
      formData := DefaultData;
      formShown, successShown := true, false;
      pending := 0;
      controls := new Control[|cs|](i requires 0 <= i < |cs| => cs[i]);
      consent := consentAt;
    }

    /** The `input` listener attached to control `i`. */
    method OnInput(i: nat)
      requires Valid() && i < controls.Length
      modifies this
      ensures Valid() && State() == Bind(old(State()), i)
    {
      var control := controls[i];
      if control.isCheckbox {
        formData := formData[control.name := Flag(control.checked)];
      } else {
        formData := formData[control.name := Text(control.value)];
      }
    }

    /** `validateForm`: one pass over the required fields, accumulating
        `isValid` and setting or clearing each one's `error` marker, then the
        consent checkbox. */
    method ValidateForm() returns (isValid: bool)
      requires Valid()
      modifies controls
      ensures isValid == FormValid(old(controls[..]), consent)
      ensures controls[..] == Marked(old(controls[..]), consent)
    {
      ghost var before := controls[..];
      isValid := true;
      var i := 0;
      while i < controls.Length
        invariant 0 <= i <= controls.Length
        invariant isValid == RequiredFilled(before[..i])
        invariant forall j :: 0 <= j < i ==> controls[j] == MarkRequired(before[j])
        invariant forall j :: i <= j < controls.Length ==> controls[j] == before[j]
      {
        var field := controls[i];
        assert before[..i + 1][..i] == before[..i];
        if field.required {
          if Blank(field.value) {
            isValid := false;
            controls[i] := field.(error := true);
          } else {
            controls[i] := field.(error := false);
          }
        }
        i := i + 1;
      }
      assert before[..controls.Length] == before;
      assert controls[..] == MarkedRequired(before);
      match consent
      case Some(k) =>
        var box := controls[k];
        if !box.checked {
          isValid := false;
          controls[k] := box.(error := true);
        } else {
          controls[k] := box.(error := false);
        }
      case None =>
    }

    /** `handleSubmitWithValidation`: a failed validation returns; a passed
        one calls `handleSubmit`, which by then schedules the original
        handler on a timer. */
    method HandleSubmitWithValidation() returns (accepted: bool)
      requires Valid()
      modifies this, controls
      ensures Valid() && State() == SubmitWithValidation(old(State()))
      ensures accepted == FormValid(old(controls[..]), consent)
    {
      accepted := ValidateForm();
      if !accepted {
        return;
      }
      pending := pending + 1;
    }

    /** A submit event: both listeners on the form run, the validating one
        first, then the loading-state `handleSubmit`. */
    method Submit()
      requires Valid()
      modifies this, controls
      ensures Valid() && State() == SubmitEvent(old(State()))
    {
      var _ := HandleSubmitWithValidation();
      pending := pending + 1;
    }

    /** The timer of a deferred submission fires and the original
        `handleSubmit` runs on the form's entries at that moment. */
    method CompleteSubmit(entries: map<string, string>)
      requires Valid() && pending > 0
      modifies this
      ensures Valid() && State() == Complete(old(State()), entries)
    {
      formData := Snapshot(entries);
      formSubmitted := true;
      formShown := false;
      successShown := true;
      pending := pending - 1;
    }

    /** `resetForm`, including the `form.reset()` it calls on the controls. */
    method ResetForm()
      requires Valid()
      modifies this, controls
      ensures Valid() && State() == Reset(old(State()))
    {
      formSubmitted := false;
      formData := DefaultData;
      forall j | 0 <= j < controls.Length {
        controls[j] := ResetControl(controls[j]);
      }
      formShown := true;
      successShown := false;
    }

    /** The document's `keydown` listener, Escape branch. */
    method OnKeyDown(key: string)
      requires Valid()
      modifies this, controls
      ensures Valid() && State() == KeyDown(old(State()), key)
    {
      if key == "Escape" && successShown {
        ResetForm();
      }
    }
  }

  /** Escape pressed after a submission has landed clears the form again,
      while Escape pressed before leaves everything as it was. */
  method EscapeScenario(cs: seq<Control>, entries: map<string, string>)
  {
    var form := new SignupForm(cs, None);
    form.OnKeyDown("Escape");
    assert form.State() == Initial(cs, None);
    form.Submit();
    form.CompleteSubmit(entries);
    assert form.formSubmitted && form.successShown;
    form.OnKeyDown("Escape");
    assert !form.formSubmitted && form.formShown && !form.successShown;
    assert form.formData == DefaultData;
  }
}
