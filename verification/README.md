# Student registration form — a Dafny model of its core logic

The form collects a student's name, registration number, department, CGPA,
date of birth, preferred tech stacks, area of interest and resume. It keeps
two pieces of state: the draft being edited and the list of submitted
records. Three pieces of logic act on them:

- the **change handler** edits one field of the draft. A checkbox appends
  its tech stack when checked and filters out every occurrence when cleared.
- the **validator** checks the name (`^[a-zA-Z\s]{2,20}$`), then the
  registration number (`^\d{12}$`), then the date of birth. The date of
  birth must not lie in the future, and the person must be at least 18.
  The first failing rule decides the result.
- the **submit handler** runs the validator. When the draft is accepted, it
  appends the draft to the list and resets the draft to the empty record.
  When the draft is rejected, nothing changes.

The model is functional. The records are immutable datatypes and each
handler is a pure function. The clock becomes a `today` parameter, and each
`alert` becomes a rejection reason.

Modules:

- `Calendar`: dates, their chronological order, and the next day.
- `Pattern`: the two anchored regular expressions, as one bounded-repetition
  matcher proved equal to its declarative meaning.
- `Lists`: the checkbox list operations (append, filter) and their toggle
  laws.
- `Records`: the draft record, the empty record, the update command and the
  change handler.
- `Validator`: the three rules and the first-failure verdict.
- `Form`: the form state, submission, and whole sessions of events.

Two behaviours of the code are worth stating up front:

- The tech-stack list is not a set. A checked box appends its value without
  looking at the list, so checking twice lists the value twice
  (`Records.CheckTwiceDuplicates`). The list stays duplicate-free as long as
  each checkbox event carries the negation of the box's displayed state
  (`Records.ApplyKeepsNoDup`, `Form.RunKeepsTechStacksNoDup`).
- For the same reason, repeating an update is idempotent for every update
  except checking a box (`Records.ApplyIdempotent`).

The validator accepts a draft with no date of birth (see "## Findings").
The model keeps both halves. `Validator.ValidateAsWritten` and
`Form.SubmitAsWritten` do what the code does. `Validator.Validate` and
`Form.Submit` reject such a draft. Sessions of events take the handler as
a parameter (`Form.Handler`: `AsWritten` or `Corrected`), and every session
lemma of `Form` holds for both.

## Model

| member | source | states |
|---|---|---|
| Pattern.Test | src/App.js:37-38 | `regex.test(s)` for `^[cls]{min,max}$` holds iff the length is within min..max and every character is in the class |
| Pattern.ConsumeIff | src/App.js:37-38 | the left-to-right bounded-repetition matcher accepts the rest of the input iff the total count fits the bounds and every remaining character is in the class |
| Lists.RemoveAll | src/App.js:29 | filtering out a value removes every occurrence of it and keeps every other element with its multiplicity |
| Lists.RemoveAllConcat | src/App.js:29 | the filter distributes over concatenation, so the survivors keep their original relative order |
| Lists.RemoveAllAbsent | src/App.js:29 | filtering out a value that is not listed leaves the list unchanged |
| Lists.RemoveAllIdempotent | src/App.js:29 | filtering out the same value twice equals filtering it once |
| Lists.Toggle | src/App.js:28-29 | checking a box puts its value at the end and keeps the old list as a prefix; clearing it removes every occurrence and keeps every other element |
| Lists.CheckThenUncheck | src/App.js:28-29 | checking a value that is not listed and then clearing it restores the original list |
| Lists.UncheckThenCheck | src/App.js:28-29 | in a duplicate-free list, clearing a listed value and checking it again yields the same multiset, with the value moved to the end |
| Lists.ToggleKeepsNoDup | src/App.js:28-29 | when `checked` is the negation of membership, a toggle keeps the list duplicate-free and flips the value's membership |
| Records.Apply | src/App.js:18-33 | a change event alters no draft field except the one its input names |
| Records.ApplyStoresValue | src/App.js:20-31 | a text, radio, date or file change leaves its field holding exactly the new value |
| Records.ApplyIdempotent | src/App.js:20-31 | repeating any change other than checking a box leaves the draft as the first change left it |
| Records.CheckTwiceDuplicates | src/App.js:28-29 | checking the same box twice lists its value twice, so the list is no longer duplicate-free |
| Records.CheckThenUncheckRestores | src/App.js:28-29 | checking an unlisted tech stack and then clearing it restores the whole draft |
| Records.ApplyKeepsNoDup | src/App.js:28-29 | a change event that agrees with the displayed checkbox state keeps the tech-stack list duplicate-free |
| Validator.DobRule | src/App.js:50-63 | the future/age/month-day rejection rule accepts exactly when the 18th birthday (birth year + 18, same month and day) is on or before today |
| Validator.FutureClauseRedundant | src/App.js:56-59 | every birth date after today is already rejected by the age clauses |
| Validator.DobRuleMonotone | src/App.js:52-59 | a birth date accepted on one day is accepted on every later day |
| Validator.DobRuleBoundary | src/App.js:52-59 | the day before the 18th birthday is rejected, and the 18th birthday itself is accepted |
| Validator.OlderThanEighteenAccepted | src/App.js:58-59 | when the years differ by more than 18, the month and day are not consulted and the date is accepted |
| Validator.DobRuleExamples | src/App.js:50-63 | with today at 2024-06-15, births on 2006-06-15 and 2006-06-14 pass, and births on 2006-06-16, 2010-01-01 and 2025-01-01 fail |
| Validator.Validate | src/App.js:35-66 | rejects with InvalidName iff the name is not 2–20 ASCII letters or whitespace; otherwise rejects with InvalidRegNumber iff the number is not 12 digits; otherwise rejects with InvalidDateOfBirth iff the date is missing or the 18th birthday is after today; accepts in every other case |
| Validator.ValidateAsWritten | src/App.js:50-65 | as in the code, a missing date of birth is accepted once the name and number pass; every rejection, including its reason, is the one Validate gives, so the name is still checked first; with a date present it agrees with Validate |
| Validator.MissingDobSlipsThrough | src/App.js:50-65 | a draft with a valid name and number and no date of birth is accepted as written, but rejected with InvalidDateOfBirth after the correction |
| Validator.ValidateReadsThreeFields | src/App.js:36 | drafts that agree on name, registration number and date of birth get the same verdict, whatever their other fields |
| Form.Submit | src/App.js:68-83 | the verdict is the validator's; an accepted submit grows the list by one, keeps the earlier entries, puts the old draft last and resets the draft to the empty record; a rejected submit changes nothing |
| Form.SubmitAsWritten | src/App.js:68-83 | the submit handler as written: the verdict is the as-written validator's, an accepted submit appends the old draft and resets the form, a rejected one changes nothing, and with a date of birth present it behaves exactly as Form.Submit |
| Form.MissingDobAppendedAsWritten | src/App.js:68-83 | a draft with a valid name and number and no date of birth is appended as written, but kept in the form with InvalidDateOfBirth by the corrected handler |
| Form.StepsDivergeOnMissingDob | src/App.js:68-83 | for every draft with a valid name and number and no date of birth, a submit event under the source's handler appends it, and under the corrected handler leaves the list as it was |
| Form.Change | src/App.js:18-33 | a change event never touches the submitted list and alters only the named draft field |
| Form.ChangeKeepsVerdict | src/App.js:36 | under either handler, changing department, CGPA, tech stacks, area of interest or resume never changes the verdict |
| Form.RunAppendsAcceptedDrafts | src/App.js:70-71 | under either handler, after any sequence of events, the list is the old list followed by the drafts current at each accepted submit, in submission order |
| Form.RunIsAppendOnly | src/App.js:71 | under either handler, no sequence of events removes or alters an entry already in the list |
| Form.RunFromInitialState | src/App.js:5-16 | under either handler, a session starting from the empty form ends with exactly the accepted drafts in the list, one entry per accepted submit, in submission order |
| Form.AcceptedDraftsPassedValidation | src/App.js:70-71 | every draft appended during a session passed the handler's validator (as written or corrected) on the day of its submit |
| Form.AcceptedDraftsAdmissible | src/App.js:70-71 | every draft appended during a session has a well-formed name and registration number; under the corrected handler it also has a date of birth |
| Form.RunKeepsListAdmissible | src/App.js:70-71 | under either handler, a list of admissible entries stays admissible through any sequence of events |
| Form.RunKeepsTechStacksNoDup | src/App.js:28-29 | under either handler, if every checkbox event agrees with the displayed state, the draft's tech-stack list stays duplicate-free for a whole session |
| Form.SubmitAcceptsExample | src/App.js:68-83 | a full valid draft submitted on 2024-06-15 is appended to the list and the form is emptied |
| Form.SubmitRejectsExample | src/App.js:68-83 | a draft named "A1" is rejected with InvalidName and neither the draft nor the list changes |

## Left out

- Rendering: the form markup and the results table (src/App.js:85-168) are presentation only.
- The `alert` messages are not modelled as text. Each one becomes the rejection reason of the rule that raised it.
- JavaScript `Date` parsing and time zones are left out. The model receives dates already parsed as (year, month, day). It also receives `today` as a date, not as the current instant.
- Validator.DobRule: compares calendar dates, not instants. The source parses the birth date as UTC midnight but reads its year, month and day in local time. West of UTC every birth date therefore reads as the day before, at every hour, so the source accepts one day before the 18th birthday (dob 2006-06-16, today 2024-06-15, UTC-5: age 18, month and day differences 0). East of UTC the dates read correctly, and the instant comparison `dobDate > today` can differ from the model only when the birth date is today, which the age clauses reject anyway.
- Form.Submit: models the corrected validator, not the call at src/App.js:70, so it keeps a draft with no date of birth that the code appends. Form.SubmitAsWritten models the code.
- Date strings that cannot be parsed are left out. The date widget yields either a valid date or the empty string, and the model's `None` is that empty string.
- Browser-enforced input constraints are left out. These are the `required`, `pattern`, `minLength`/`maxLength` and `type="number"` attributes. They act before the submit handler runs and are not part of its logic.
- The resume's `File` object is opaque. Only its name is kept (`ResumeFile`), and a cancelled selection (`files[0]` undefined) is `None`.
- React's batching of state updates is left out. Each handler is one atomic transition.
- Strings are sequences of Unicode scalar values, while JavaScript's regular expressions without the `u` flag see UTF-16 code units. The verdicts agree: a character outside the Basic Multilingual Plane is neither a letter nor whitespace, so it fails in both.

## Findings

| source | as written | input that shows it | evidently intended | confidence | as-written member | corrected member |
|---|---|---|---|---|---|---|
| src/App.js:50-59 | An empty date of birth parses to an invalid date, and every comparison against it is false, so the date-of-birth rule lets the draft through and the submit handler (line 71) appends it; `Validator.ValidateAsWritten` carries the validator half | name "Abc R", registration number "210412345678", date of birth "" | reject with the date-of-birth message, because a missing date does not show the person is 18 | medium, not executed; only the date input's `required` attribute keeps a browser from submitting it | Form.SubmitAsWritten | Form.Submit |
