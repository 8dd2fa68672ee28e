# College fest site: the deterministic core, in Dafny

The college cultural festival's website is mostly markup. It has four small
pieces of deterministic logic, and this project models each one as pure
functions over immutable datatypes:

- **Registration wizard.** A three-step form: personal details, then
  participation details, then payment. Per-step validators gate "Next Step".
  "Back" clears the error. Two input handlers each change one field.
  `handleSubmit` uploads the payment screenshot and signs the user up. The
  email and password go as credentials, and the other fields except
  `confirmPassword` go as metadata, along with the screenshot's public URL.
  It then redirects to sign-in.
  - `registration.dfy` holds the form, the validators and the transitions.
  - `submission.dfy` holds the upload key and `handleSubmit`.
  - `wizard_trace.dfy` drives the wizard through any sequence of user
    interactions. It only allows the controls that are on screen.
- **Events filter** (`events.dfy`). The static catalogue of eight events and
  the conjunctive filter over it: category, case-insensitive search on title
  or subtitle, and Solo/Group team type.
- **Countdown** (`countdown.dfy`). Splits a positive millisecond difference
  into days, hours, minutes and seconds. A tick with a non-positive
  difference keeps the previous value. Values are shown padded to two digits.
- **FAQ accordion** (`faq.dfy`). One optional index, toggled by clicks, so at
  most one answer is visible.

`strings.dfy` models the JavaScript string operations these rely on:
`toLowerCase`, `includes`, decimal `toString`, `padStart`, and
`split('.').pop()`. `wrappers.dfy` holds `Option` and `Outcome`.

External calls are inputs, not behaviour:

- The clock (`Date.now()`, `new Date().getTime()`) is passed in as integers.
- The storage and authentication provider's replies are passed in as a
  `Provider` value: upload outcome, public URL, sign-up outcome.
- `handleSubmit` returns the calls it makes (upload, sign-up, alert,
  redirect) as a trace of effects, in order.

A provider failure is not always shown verbatim. The handler shows
`err.message || "Failed to register"`, so an empty provider message is
replaced by the fallback text (`Submission.ErrorText`).

## Model

| member | source | states |
|---|---|---|
| Registration.Set | app/register/page.tsx:65-66 | the named field takes the new value; every other field and the screenshot keep their old values |
| Registration.FormExtensionality | app/register/page.tsx:47-63 | the twelve text fields and the screenshot together determine the form record |
| Registration.ValidateStep1 | app/register/page.tsx:77-88 | passes exactly when the six personal fields are non-empty and the passwords agree; a missing field is reported as "fill the all details" before any mismatch; a mismatch alone gives "Passwords do not match." |
| Registration.ValidateStep2 | app/register/page.tsx:90-97 | passes exactly when the five participation fields are non-empty; otherwise the message is "fill the all details" |
| Registration.ValidateStep3 | app/register/page.tsx:99-110 | passes exactly when a payment method and a screenshot are present; a missing method is reported before a missing screenshot |
| Registration.HandleNextStep | app/register/page.tsx:112-119 | step 1 advances iff step 1 is complete and step 2 iff step 2 is complete, with the validator's message on refusal; at any other step only the error clears; the form never changes and the step stays in 1..3 |
| Registration.HandlePrevStep | app/register/page.tsx:121-124 | the error clears; the step drops by exactly one above step 1 and stays put at step 1; the form is untouched |
| Registration.PrevUndoesNext | app/register/page.tsx:112-124 | Back after an accepted Next returns to the original wizard, with the error cleared |
| Registration.HandleChange | app/register/page.tsx:65-68 | only the named field changes; the error clears; the step does not move |
| Registration.ChangeToSameValue | app/register/page.tsx:65-68 | re-entering a field's current value changes nothing except the error line |
| Registration.HandleFileChange | app/register/page.tsx:70-75 | with no file chosen, nothing changes at all; otherwise the first file becomes the screenshot, the error clears and no text field changes |
| Registration.PlanName | app/register/page.tsx:191-195 | a known plan value is shown as the text of its step-2 option before the price; any other value is shown as is |
| Registration.AmountsAgree | app/register/page.tsx:570-579 | the amount label and the QR code's `am=` parameter are the decimal numeral of the plan's price |
| Registration.SummaryMatchesOption | app/register/page.tsx:413-414 | for each plan option, plan name + " - " + amount label reproduces that option's label from step 2 |
| Submission.UploadKey | app/register/page.tsx:140-141 | the key starts with the roll number and a dash, and has the uploaded file's extension |
| Submission.UploadKeyTimestamp | app/register/page.tsx:141 | between the dash and the extension's dot the key holds exactly the decimal numeral of the timestamp |
| Submission.UploadKeyDeterminesTime | app/register/page.tsx:141 | for the same student and file, equal keys mean equal timestamps |
| Submission.ErrorText | app/register/page.tsx:184 | the shown error is never empty: it is the provider's message when that is non-empty, and "Failed to register" otherwise |
| Submission.TryRegister | app/register/page.tsx:134-181 | a failure is the upload's or the sign-up's own outcome; the block succeeds exactly when it redirects to sign-in |
| Submission.HandleSubmit | app/register/page.tsx:128-188 | validation failure means no call and only the validator's message; otherwise the upload comes first, then the sign-up carrying the form and the public URL, then alert and redirect on success; upload failure stops after one call and sign-up failure after two; step and form are always kept; the error is empty exactly when the handler redirected |
| Submission.ValidationBeforeEffects | app/register/page.tsx:129 | any call made implies the form passed step-3 validation |
| Submission.ProviderFailureKeepsData | app/register/page.tsx:182-187 | on a provider failure the wizard keeps its step and form, loading ends false, the failing call's message (or the fallback) is shown, and there is no redirect |
| WizardTrace.SignUpsCarryForm | app/register/page.tsx:157-174 | every sign-up sends the form's email and password as credentials, and its fields other than `confirmPassword` as metadata |
| WizardTrace.CompleteFormSignsUpComplete | app/register/page.tsx:157-174 | a form complete on all three steps produces a sign-up with no empty field other than the provider-supplied screenshot URL |
| WizardTrace.TypingKeepsEarlierSteps | app/register/page.tsx:261-504 | typing into a field of the visible step cannot undo the completeness of earlier steps |
| WizardTrace.SubmitFromConsistent | app/register/page.tsx:672-678 | a submission from step 3 in a consistent state stays consistent, and all its sign-ups are complete |
| WizardTrace.ApplyKeepsConsistent | app/register/page.tsx:662-690 | every interaction the page renders keeps the wizard consistent: step in 1..3, not loading, earlier steps complete |
| WizardTrace.RunKeepsConsistent | app/register/page.tsx:662-690 | the same over any sequence of interactions, with every sign-up complete |
| WizardTrace.FreshSessionSignsUpOnlyCompleteForms | app/register/page.tsx:39-63 | starting from the freshly mounted page, no interaction sequence sends a sign-up with an empty field (other than the provider-supplied screenshot URL) or reaches step 3 without complete steps 1 and 2 |
| Events.FilterEvents | app/events/page.tsx:162-175 | the result keeps catalogue order (a subsequence), every kept event passes all three predicates, and each passing event appears exactly as often as in the catalogue |
| Events.FilterMembership | app/events/page.tsx:162-175 | an event is shown iff it is in the catalogue and passes category, search and type |
| Events.FilterCongruent | app/events/page.tsx:162-175 | two filter settings accepting the same events give the same list |
| Events.DefaultShowsEverything | app/events/page.tsx:47-158 | the initial filters ("All categories", empty query, "All Types") show the whole catalogue in order |
| Events.EmptyQueryMatches | app/events/page.tsx:164-165 | the empty query matches every event |
| Events.SearchIgnoresQueryCase | app/events/page.tsx:164-165 | queries equal after lower-casing select the same events |
| Events.CategoryNarrows | app/events/page.tsx:163 | "All categories" imposes nothing; choosing a category equals filtering the unrestricted result by exact category |
| Events.TypeSelects | app/events/page.tsx:167-172 | "Solo" keeps exactly the events whose team size is "Individual"; "Group" keeps exactly the others |
| Events.TypeMenuSelects | app/events/page.tsx:160-172 | of the three type options, "All Types" accepts every event, "Solo" exactly the "Individual" events and "Group" exactly the others |
| Events.OtherTypesImposeNothing | app/events/page.tsx:167-172 | a type value other than "Solo" and "Group" imposes no constraint |
| Events.CategoryButtonsCoverCatalogue | app/events/page.tsx:38-156 | every catalogue event's category is one of the specific category buttons |
| Events.SoloGroupPartition | app/events/page.tsx:167-172 | for a fixed category and query, the Solo and Group results are disjoint and together hold the "All Types" result |
| Events.SingleMatch | app/events/page.tsx:162 | when exactly one position passes, the result is that event alone |
| Events.NoneMatch | app/events/page.tsx:162 | when no position passes, the result is empty |
| Events.OnlyWallRushMatches | app/events/page.tsx:51-156 | every catalogue event but WALL RUSH fails category "Fine Arts" with query "wall" |
| Events.FineArtsWallExample | app/events/page.tsx:92-103 | category "Fine Arts" with query "wall" shows exactly WALL RUSH |
| Countdown.Decompose | components/countdown-timer.tsx:24-30 | for a positive difference, hours < 24, minutes < 60, seconds < 60, all parts are non-negative, and the parts account for the difference rounded down to a whole second |
| Countdown.DecomposeMillis | components/countdown-timer.tsx:26-29 | the decomposition is unique: any in-range state plus less than a second decomposes back to itself |
| Countdown.OneDayBefore | components/countdown-timer.tsx:26-29 | 86400000 ms decomposes to 1 day, 0 hours, 0 minutes, 0 seconds |
| Countdown.Tick | components/countdown-timer.tsx:20-32 | a non-positive difference keeps the previous state; a positive one gives its in-range decomposition |
| Countdown.TicksStayInRange | components/countdown-timer.tsx:34-35 | over any sequence of ticks from an in-range state, the state stays in range |
| Countdown.FrozenAfterTarget | components/countdown-timer.tsx:24 | once the target has passed, ticks change nothing |
| Countdown.InitialInRange | components/countdown-timer.tsx:8-13 | the state before the first tick is all zeros, which is in range |
| Countdown.DisplayReadsBack | components/countdown-timer.tsx:51 | a value is shown as its decimal numeral, left-padded with '0' to two characters and never truncated, and the shown text reads back as the value |
| Faq.Toggle | app/faq/page.tsx:102 | after a click on item i, an item is open iff it is i and i was not open before |
| Faq.OnlyLastClickedOpen | app/faq/page.tsx:102 | after any clicks, only the last-clicked item can be open |
| Faq.RepeatedClicks | app/faq/page.tsx:64-102 | from the all-closed page, k clicks on one item leave it open iff k is odd |
| Faq.ShownFrom | app/faq/page.tsx:93-127 | at most one answer is rendered, and it is the open item's |
| Faq.ShownAnswers | app/faq/page.tsx:108-127 | the open item's answer is shown; with nothing open, nothing is shown |
| Faq.PageExample | app/faq/page.tsx:37-64 | on the real page nothing is shown at first; one click shows exactly the clicked answer, and a second click hides it |
| Strings.ContainsIffOccurs | app/events/page.tsx:164-165 | the `includes` scan succeeds iff the query occurs at some position |
| Strings.ParseNatToString | components/countdown-timer.tsx:51 | the decimal numeral of n reads back as n |
| Strings.NatToStringParse | components/countdown-timer.tsx:51 | a canonical digit string is the numeral of the number it reads as |
| Strings.PadStart | components/countdown-timer.tsx:51 | the length is the larger of the target and the input; the input is the suffix; everything before it is the fill character |
| Strings.JoinSplit | app/register/page.tsx:140 | joining the pieces of a split with the separator restores the string |
| Strings.Extension | app/register/page.tsx:140 | the extension has no '.', is a suffix of the name, is preceded by '.' when shorter, and is the whole name when the name has no '.' |
| Strings.ExtensionAfterLastDot | app/register/page.tsx:140-141 | a name ending in '.' and a dot-free text has that text as its extension |

## Left out

- The star-particle animation on every page. It uses random numbers, DOM mutation and timers, and is decorative only.
- The provider calls themselves (storage upload, `getPublicUrl`, auth `signUp`). Their replies are the `Provider` parameter. Any exception other than an upload or sign-up error is not modelled.
- `console.error` on a failed registration. It has no effect on the page.
- The uploaded `File` object beyond its name. Only the name affects the key.
- Date parsing and time zones. `"2026-03-10T00:00:00"` and `Date.now()` become integer milliseconds passed in.
- `setInterval` scheduling. Ticks are modelled as a sequence of clock readings (`Countdown.Ticks`).
- The interleaving of a pending submission with other interactions. `handleSubmit` is modelled as settling at once. Consequently the loading flag is only observed as false, and the disabled "Complete Registration" button only matters through `WizardTrace.Enabled`.
- The countdown's `mounted` flag and the `Object.entries` rendering order. Both are presentational. The model keeps the four values and the padded display of each.
- The "no events found" message for an empty result, the type dropdown's open state, and the show-password toggles. These are presentational state with no effect on the filter or the form.
- Countdown.Decompose: JavaScript's double-precision `/` followed by `Math.floor` is modelled as integer division and remainder. The two agree for any difference below 2^53 ms.
- The minus sign of `toString` for negative countdown values. `Countdown.Display` takes a `nat`, because every state reached is in range (`Countdown.TicksStayInRange`).
- `toLowerCase` is ASCII-only. Characters outside 'A'..'Z' are left unchanged.
- Interactions after a successful submission. On the real page the redirect to sign-in unmounts the wizard. `WizardTrace.Run` keeps applying actions to the step-3 wizard, so a further submit would upload and sign up again. The proved properties are safety invariants, which hold on this longer trace too.
- The sign-in, login, team and home pages, the navbar, the footer, and the event, society and team cards. These are network calls or static markup.
