# Sign-up form state machine

A Dafny model of the form logic of a community landing page's `script.js`. It covers:

- the global `formData` record and the `formSubmitted` flag;
- the inline display of the form container and of the success message;
- the form's controls: their `value`, `checked`, `required` and `error` marker;
- the handlers that change all of the above: input mirroring, `validateForm`, `handleSubmitWithValidation`, the original `handleSubmit` body, `resetForm` and the Escape-key guard.

The model is split into three modules:

- `Whitespace` (`whitespace.dfy`): JavaScript's `String.prototype.trim`, and the validator's test `!value.trim()` (`Blank`).
- `FormSpec` (`form_spec.dfy`): the whole page state as a value (`Page`). Each handler is a function from one page state to the next, and the lemmas state what the handlers promise.
- `FormController` (`form_controller.dfy`): the class `SignupForm`. Its fields are updated in place, the controls are an `array<Control>`, and `validateForm` is a loop with invariants. Every method is proved to move `State()` exactly as the matching `FormSpec` function does, so the lemmas about those functions hold of the class.

The 1000 ms deferral of a submission is modelled by the counter `pending`, the number of deferred submissions whose timer has not fired yet. `CompleteSubmit` is the timer firing. It takes the form's entries at that moment as a parameter.

Four behaviours of the code are easy to misread; the model follows the code:

- The snapshot is taken when the deferred handler runs, not when submit begins. `new FormData(formElement)` is evaluated inside the deferred call (script.js:35, 239-241).
- An unchecked `careers` checkbox is absent from the snapshot, not `false`. A checked one holds its string value (script.js:39-42).
- Consent is required only when an element with id `consent` exists (script.js:167-173).
- A reset does not cancel a deferred submission. When that submission lands, the success view comes back (`ResetDuringSubmission`).

## Model

| member | source | states |
|---|---|---|
| Whitespace.TrimStartDropsLeadingWhitespace | script.js:158 | trimming the start keeps a suffix of the value, drops only white space, and stops at the first character that is not white space |
| Whitespace.TrimEndDropsTrailingWhitespace | script.js:158 | trimming the end keeps a prefix of the value, drops only white space, and stops at the last character that is not white space |
| Whitespace.TrimIsStrippedInfix | script.js:158 | `trim()` yields an infix of the value; everything around it is white space; it neither starts nor ends with white space |
| Whitespace.BlankIffAllWhitespace | script.js:158 | `!value.trim()` holds iff the value is empty or white space only |
| FormSpec.Initial | script.js:2-11 | at load `formData` has exactly the seven keys, the five text fields empty and `careers`/`consent` false; nothing is submitted, the form is displayed, no submission is pending; the page is over the given controls and consent element |
| FormSpec.Bind | script.js:141-148 | an input event leaves `formData[name]` mirroring the control (`checked` for a checkbox, `value` otherwise); no other key and nothing else changes |
| FormSpec.BindKeepsMirrors | script.js:141-148 | binding one control keeps every differently named control mirrored; binding the same control twice equals binding it once |
| FormSpec.RequiredFilledIff | script.js:154-164 | the loop's `isValid` accumulator ends false iff some required field is blank or white space only |
| FormSpec.FormValidIff | script.js:153-176 | `validateForm` returns true iff every required field is not white space only and the consent checkbox, when present, is checked |
| FormSpec.MarkedErrors | script.js:157-173 | validation changes only `error` markers: consent is marked iff unchecked, any other required field iff blank, any other field keeps its marker |
| FormSpec.ValidateTwice | script.js:153-176 | validating twice returns the same result and leaves the same markers as validating once |
| FormSpec.ValidIffUnmarked | script.js:153-176 | unless the consent checkbox is itself required with a blank value, validation fails iff it leaves some required field or the consent checkbox marked |
| FormSpec.ConsentUncheckedExample | script.js:153-176 | name and e-mail filled, mobile spaces only, consent unchecked: invalid; mobile and consent marked; the filled fields are unmarked |
| FormSpec.MarkedRequired | script.js:157-164 | the loop changes only markers: each required control is marked iff its value is blank after trimming; other controls keep their marker |
| FormSpec.Marked | script.js:157-173 | validation changes only markers, and the consent checkbox ends marked iff unchecked (`MarkedErrors` gives every control) |
| FormSpec.SubmitWithValidationEffect | script.js:193-211 | a failed validation changes only the markers; a passed one also schedules exactly one deferred submission; `formData`, `formSubmitted` and the views do not change at once |
| FormSpec.InvalidSubmitStillCompletes | script.js:213-242 | as wired, a submit that fails validation still schedules a deferred submission, and when it fires the success view is shown |
| FormSpec.ValidSubmitCompletesTwice | script.js:213-242 | as wired, a submit that passes validation schedules two deferred submissions, so the original handler runs twice and the later snapshot stays |
| FormSpec.Snapshot | script.js:35-42 | the stored object has the submitted keys plus `consent`; `consent` is whether a consent entry was submitted; every other key holds its entry's string |
| FormSpec.Complete | script.js:39-49 | the deferred original handler consumes one scheduled submission, sets the flag, hides the form, shows the success message, and stores the submitted keys plus `consent` as a boolean of whether it was submitted |
| FormSpec.CompleteEffect | script.js:39-49 | the original handler sets `formSubmitted`, hides the form, shows the success message, and makes `formData` the snapshot of the entries: `consent` a boolean, every other entry its string, an unsubmitted `careers` absent |
| FormSpec.Reset | script.js:64-81 | a reset clears `formSubmitted`, restores the seven defaults, shows the form and hides the success message, and keeps pending submissions |
| FormSpec.ResetEffect | script.js:64-81 | a reset clears `formSubmitted` and sets all seven keys to their defaults; the form is shown and the success message hidden; controls get their defaults and keep their markers; pending submissions stay |
| FormSpec.ResetIdempotent | script.js:64-81 | resetting twice gives the same state as resetting once |
| FormSpec.ResetDuringSubmission | script.js:236-242 | a reset during the submit delay does not cancel the submission; when it lands, the success view and the snapshot come back |
| FormSpec.KeyDownEffect | script.js:245-249 | Escape resets iff the success message is displayed; Escape with the form displayed changes nothing, and no other key triggers the reset |
| FormSpec.EscapeAfterSubmit | script.js:245-249 | Escape after a completed submission brings back the default data and the form view |
| FormController.SignupForm.constructor | script.js:2-11 | the initial page state over the given controls |
| FormController.SignupForm.OnInput | script.js:141-148 | the new state is `Bind` of the old |
| FormController.SignupForm.ValidateForm | script.js:153-176 | returns `FormValid` of the controls as they were, and leaves them as `Marked` says |
| FormController.SignupForm.HandleSubmitWithValidation | script.js:193-211 | returns whether validation passed; the new state is `SubmitWithValidation` of the old |
| FormController.SignupForm.Submit | script.js:213-242 | a submit event runs both attached listeners; the new state is `SubmitEvent` of the old |
| FormController.SignupForm.CompleteSubmit | script.js:31-61 | the new state is `Complete` of the old on the given entries |
| FormController.SignupForm.ResetForm | script.js:64-81 | the new state is `Reset` of the old |
| FormController.SignupForm.OnKeyDown | script.js:245-249 | the new state is `KeyDown` of the old |

## Left out

- Timers are modelled only as the `pending` counter. Real time, the 100 ms scroll delay and the order in which timers fire are not modelled. Any pending submission may complete at any step.
- `addLoadingState` (script.js:220-233) is not modelled. It changes the submit button's label and disabled state and restores them after 2000 ms, which is cosmetic.
- `scrollIntoView` and `focus` calls are not modelled: on the first marked field after a failed validation, on the success message, and in `resetForm` and `scrollToForm`. They are pure display effects.
- FormSpec.KeyDownEffect: covers only the Escape branch of the `keydown` listener. Enter on an input dispatches a submit event (script.js:252-257), which runs both submit listeners like `SubmitEvent`; that branch is not modelled, so the lemma's "any other key changes nothing" holds only of the Escape branch.
- The CTA and navigation smooth-scrolling, the Tab focus trap in `manageFocus`, the Enter-key re-dispatch of submit, the IntersectionObserver animations and the style injection are not modelled. They are browser event plumbing or cosmetic.
- The browser's `FormData` and `Object.fromEntries` are not modelled. The submitted entries are a parameter `map<string, string>`, so duplicate names, file inputs and disabled controls are not represented.
- The `console.log` diagnostics are not modelled.
- `preventDefault` on the submit event is not modelled; nothing is sent anywhere.
- The HTML page is not part of this model. The controls and the position of the `consent` element are constructor parameters, and the consent checkbox is assumed to be one of the form's controls. The initial inline display of the two views is taken as form shown, success hidden.
- Values in `formData` are either strings or booleans. Other JavaScript values cannot arise from these handlers.

## Findings

| source | as written | input that shows it | evidently intended | confidence | as-written member | corrected member |
|---|---|---|---|---|---|---|
| script.js:104 | `removeEventListener('submit', handleSubmit)` at script.js:215 runs at load, before the DOMContentLoaded listener attaches `handleSubmit` at script.js:104. By then `handleSubmit` has been rebound to the loading-state wrapper (script.js:237). So every submit event also schedules an unvalidated submission. | a form whose required field is empty: validation fails, yet one deferred submission is scheduled, and when it fires the success view is shown | only `handleSubmitWithValidation` is attached, so a failed validation schedules nothing | medium (depends on the script running before DOMContentLoaded, as a plain script tag does); not executed | FormSpec.InvalidSubmitStillCompletes | FormSpec.SubmitWithValidationEffect |
