/** The form's two pieces of state, the draft and the list of submitted
    records, and the two transitions that change them: a change event edits
    the draft, a submit event validates the draft and, when it is accepted,
    moves it to the end of the list and empties the form. */
module Form {
  import opened Calendar
  import opened Lists
  import opened Records
  import opened Validator

  datatype FormState = FormState(draft: Draft, submitted: seq<Draft>)

  const InitialState := FormState(EmptyDraft, [])

  /** What a submit produces: the next state and the verdict shown. */
  datatype SubmitOutcome = SubmitOutcome(state: FormState, verdict: Verdict)

  /** The submit handler, over the corrected validator `Validate`, which
      rejects a draft without a date of birth. */
  function Submit(s: FormState, today: Date): (r: SubmitOutcome)
    ensures r.verdict == Validate(s.draft, today)
    ensures r.verdict.Accept? ==>
      && |r.state.submitted| == |s.submitted| + 1
      && r.state.submitted[..|s.submitted|] == s.submitted
      && r.state.submitted[|s.submitted|] == s.draft
      && r.state.draft == EmptyDraft
    ensures r.verdict.Reject? ==> r.state == s
  {
    var v := Validate(s.draft, today);
    if v == Accept then SubmitOutcome(FormState(EmptyDraft, s.submitted + [s.draft]), v)
    else SubmitOutcome(s, v)
  }

  /** The submit handler as the source writes it, over `ValidateAsWritten`:
      a draft with no date of birth is appended once its name and number
      pass. */
  function SubmitAsWritten(s: FormState, today: Date): (r: SubmitOutcome)
    ensures r.verdict == ValidateAsWritten(s.draft, today)
    ensures r.verdict.Accept? ==>
      && |r.state.submitted| == |s.submitted| + 1
      && r.state.submitted[..|s.submitted|] == s.submitted
      && r.state.submitted[|s.submitted|] == s.draft
      && r.state.draft == EmptyDraft
    ensures r.verdict.Reject? ==> r.state == s
    ensures s.draft.dob.Some? ==> r == Submit(s, today)
  {
    var v := ValidateAsWritten(s.draft, today);
    if v == Accept then SubmitOutcome(FormState(EmptyDraft, s.submitted + [s.draft]), v)
    else SubmitOutcome(s, v)
  }

  /** The two submit handlers part only on a draft with no date of birth:
      the source appends it, the corrected handler keeps it in the form. */
  lemma MissingDobAppendedAsWritten(log: seq<Draft>, today: Date)
    ensures var d := EmptyDraft.(name := "Abc R", regNumber := "210412345678");
      && SubmitAsWritten(FormState(d, log), today) == SubmitOutcome(FormState(EmptyDraft, log + [d]), Accept)
      && Submit(FormState(d, log), today) == SubmitOutcome(FormState(d, log), Reject(InvalidDateOfBirth))
  {
    MissingDobSlipsThrough(today);
  }

  /** The change handler lifted to the whole state: the list is untouched. */
  function Change(s: FormState, u: Update): (r: FormState)
    ensures r.submitted == s.submitted
    ensures SameExcept(s.draft, r.draft, Target(u))
  {
    s.(draft := Apply(s.draft, u))
  }

  /** Which submit handler a session runs: the source's own, or the one
      with the corrected validator. */
  datatype Handler = AsWritten | Corrected

  /** The validator the handler consults. */
  function Decide(h: Handler, d: Draft, today: Date): Verdict {
    match h
    case AsWritten => ValidateAsWritten(d, today)
    case Corrected => Validate(d, today)
  }

  function SubmitWith(h: Handler, s: FormState, today: Date): SubmitOutcome {
    match h
    case AsWritten => SubmitAsWritten(s, today)
    case Corrected => Submit(s, today)
  }

  /** A change to a field the validator does not read leaves the verdict of
      every later submit as it was, under either handler. */
  lemma ChangeKeepsVerdict(h: Handler, s: FormState, u: Update, today: Date)
    requires Target(u) !in {NameField, RegNumberField, DobField}
    ensures Decide(h, Change(s, u).draft, today) == Decide(h, s.draft, today)
  {
  }

  /** One user event. */
  datatype Event = ChangeEvent(update: Update) | SubmitEvent(today: Date)

  function Step(h: Handler, s: FormState, e: Event): FormState {
    match e
    case ChangeEvent(u) => Change(s, u)
    case SubmitEvent(today) => SubmitWith(h, s, today).state
  }

  /** The state after a session's events, handled one at a time in order. */
  function Run(h: Handler, s: FormState, events: seq<Event>): FormState
    decreases |events|
  {
    if |events| == 0 then s else Run(h, Step(h, s, events[0]), events[1..])
  }

  /** Whether the first of a session's events is a submit the handler accepts. */
  predicate AcceptedFirst(h: Handler, s: FormState, events: seq<Event>)
    requires |events| != 0
  {
    events[0].SubmitEvent? && Decide(h, s.draft, events[0].today) == Accept
  }

  /** The drafts that were current at each accepted submit, in order. */
  function AcceptedDrafts(h: Handler, s: FormState, events: seq<Event>): seq<Draft>
    decreases |events|
  {
    if |events| == 0 then []
    else
      (if AcceptedFirst(h, s, events) then [s.draft] else [])
        + AcceptedDrafts(h, Step(h, s, events[0]), events[1..])
  }

  /** The submit dates of the accepted submits, in the same order. */
  function AcceptanceDays(h: Handler, s: FormState, events: seq<Event>): seq<Date>
    decreases |events|
  {
    if |events| == 0 then []
    else
      (if AcceptedFirst(h, s, events) then [events[0].today] else [])
        + AcceptanceDays(h, Step(h, s, events[0]), events[1..])
  }

  /** Every draft appended during a session passed the handler's validator on
      the day it was submitted. */
  lemma {:induction false} AcceptedDraftsPassedValidation(h: Handler, s: FormState, events: seq<Event>)
    ensures |AcceptanceDays(h, s, events)| == |AcceptedDrafts(h, s, events)|
    ensures forall i :: 0 <= i < |AcceptedDrafts(h, s, events)| ==>
      Decide(h, AcceptedDrafts(h, s, events)[i], AcceptanceDays(h, s, events)[i]) == Accept
    decreases |events|
  {
    if |events| != 0 {
      var s' := Step(h, s, events[0]);
      AcceptedDraftsPassedValidation(h, s', events[1..]);
      var ds, ts := AcceptedDrafts(h, s', events[1..]), AcceptanceDays(h, s', events[1..]);
      if AcceptedFirst(h, s, events) {
        assert AcceptedDrafts(h, s, events) == [s.draft] + ds;
        assert AcceptanceDays(h, s, events) == [events[0].today] + ts;
      } else {
        assert AcceptedDrafts(h, s, events) == ds;
        assert AcceptanceDays(h, s, events) == ts;
      }
    }
  }

  /** The list of submissions after a session is the list before it followed
      by the accepted drafts in submission order: it only grows at the end,
      by one entry per accepted submit, and never loses or alters an entry. */
  lemma {:induction false} RunAppendsAcceptedDrafts(h: Handler, s: FormState, events: seq<Event>)
    ensures Run(h, s, events).submitted == s.submitted + AcceptedDrafts(h, s, events)
    decreases |events|
  {
    if |events| == 0 {
      assert s.submitted + [] == s.submitted;
    } else {
      var s' := Step(h, s, events[0]);
      var rest := AcceptedDrafts(h, s', events[1..]);
      RunAppendsAcceptedDrafts(h, s', events[1..]);
      if AcceptedFirst(h, s, events) {
        assert s'.submitted == s.submitted + [s.draft];
        assert s.submitted + [s.draft] + rest == s.submitted + ([s.draft] + rest);
      } else {
        assert s'.submitted == s.submitted;
        assert [] + rest == rest;
      }
    }
  }

  /** Append-only: earlier entries survive every later event unchanged. */
  lemma RunIsAppendOnly(h: Handler, s: FormState, events: seq<Event>)
    ensures |s.submitted| <= |Run(h, s, events).submitted|
    ensures Run(h, s, events).submitted[..|s.submitted|] == s.submitted
  {
    RunAppendsAcceptedDrafts(h, s, events);
  }

  /** From the empty form, the list after a session holds exactly the
      accepted drafts, one entry per accepted submit, in submission order. */
  lemma RunFromInitialState(h: Handler, events: seq<Event>)
    ensures Run(h, InitialState, events).submitted == AcceptedDrafts(h, InitialState, events)
  {
    RunAppendsAcceptedDrafts(h, InitialState, events);
    assert [] + AcceptedDrafts(h, InitialState, events) == AcceptedDrafts(h, InitialState, events);
  }

  /** A submit event parts the two handlers on every draft with a valid name
      and number and no date of birth: the source's handler logs it, the
      corrected one does not. */
  lemma StepsDivergeOnMissingDob(d: Draft, log: seq<Draft>, today: Date)
    requires WellFormedName(d.name) && WellFormedRegNumber(d.regNumber) && d.dob.None?
    ensures Step(AsWritten, FormState(d, log), SubmitEvent(today)).submitted == log + [d]
    ensures Step(Corrected, FormState(d, log), SubmitEvent(today)).submitted == log
  {
  }

  /** An entry of the list passed the name and registration-number checks
      and, under the corrected handler, carries a date of birth. */
  predicate Admissible(h: Handler, d: Draft) {
    && WellFormedName(d.name) && WellFormedRegNumber(d.regNumber)
    && (h == Corrected ==> d.dob.Some?)
  }

  /** Every accepted draft is admissible. */
  lemma AcceptedDraftsAdmissible(h: Handler, s: FormState, events: seq<Event>)
    ensures forall i :: 0 <= i < |AcceptedDrafts(h, s, events)| ==> Admissible(h, AcceptedDrafts(h, s, events)[i])
  {
    AcceptedDraftsPassedValidation(h, s, events);
  }

  /** So a list of admissible entries stays admissible for the whole session. */
  lemma RunKeepsListAdmissible(h: Handler, s: FormState, events: seq<Event>)
    requires forall i :: 0 <= i < |s.submitted| ==> Admissible(h, s.submitted[i])
    ensures forall i :: 0 <= i < |Run(h, s, events).submitted| ==> Admissible(h, Run(h, s, events).submitted[i])
  {
    RunAppendsAcceptedDrafts(h, s, events);
    AcceptedDraftsAdmissible(h, s, events);
    var a := AcceptedDrafts(h, s, events);
    forall i | 0 <= i < |s.submitted + a| ensures Admissible(h, (s.submitted + a)[i]) {
      if i >= |s.submitted| {
        assert (s.submitted + a)[i] == a[i - |s.submitted|];
      }
    }
  }

  /** Under the checkbox discipline the draft's tech-stack list stays free of
      duplicates through any session: submits only reset it to empty. */
  lemma {:induction false} RunKeepsTechStacksNoDup(h: Handler, s: FormState, events: seq<Event>)
    requires NoDup(s.draft.techStacks)
    requires forall k :: 0 <= k < |events| && events[k].ChangeEvent? ==>
      ConsistentWith(Run(h, s, events[..k]).draft, events[k].update)
    ensures NoDup(Run(h, s, events).draft.techStacks)
    decreases |events|
  {
    if |events| != 0 {
      var e := events[0];
      var s' := Step(h, s, e);
      assert Run(h, s, events[..0]) == s by { assert events[..0] == []; }
      if e.ChangeEvent? {
        ApplyKeepsNoDup(s.draft, e.update);
      }
      forall k | 0 <= k < |events[1..]| && events[1..][k].ChangeEvent?
        ensures ConsistentWith(Run(h, s', events[1..][..k]).draft, events[1..][k].update)
      {
        assert events[..k + 1][0] == e;
        assert events[..k + 1][1..] == events[1..][..k];
        assert events[1..][k] == events[k + 1];
      }
      RunKeepsTechStacksNoDup(h, s', events[1..]);
    }
  }

  /** A full valid draft submitted on 15 June 2024 is appended to the list
      and the form is emptied. */
  lemma SubmitAcceptsExample(log: seq<Draft>)
    ensures var d := EmptyDraft.(name := "Abc R", regNumber := "210412345678",
                                 department := Some(CSE), cgpa := "8.5",
                                 dob := Some(Date(2002, 1, 1)), techStacks := [Backend]);
      Submit(FormState(d, log), Date(2024, 6, 15)) == SubmitOutcome(FormState(EmptyDraft, log + [d]), Accept)
  {
    var d := EmptyDraft.(name := "Abc R", regNumber := "210412345678",
                         department := Some(CSE), cgpa := "8.5",
                         dob := Some(Date(2002, 1, 1)), techStacks := [Backend]);
    SampleFieldsWellFormed();
    assert DobRule(Date(2002, 1, 1), Date(2024, 6, 15));
    var r := Submit(FormState(d, log), Date(2024, 6, 15));
    assert r.verdict == Accept;
    assert r.state.submitted == log + [d];
  }

  /** A draft whose name holds a digit is rejected for its name and nothing
      changes. */
  lemma SubmitRejectsExample(log: seq<Draft>)
    ensures var d := EmptyDraft.(name := "A1");
      Submit(FormState(d, log), Date(2024, 6, 15)) == SubmitOutcome(FormState(d, log), Reject(InvalidName))
  {
    assert !WellFormedName("A1") by {
      assert "A1"[1] == '1';
    }
  }
}
