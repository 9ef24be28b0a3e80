/** The submission validator. It looks at the name, the registration number
    and the date of birth, in that order, and the first rule that fails
    decides the rejection; no other field is ever examined. The clock is a
    parameter: `today` is the date on which the form is submitted. */
module Validator {
  import opened Calendar
  import opened Pattern
  import opened Records

  datatype Reason = InvalidName | InvalidRegNumber | InvalidDateOfBirth

  datatype Verdict = Accept | Reject(reason: Reason)

  /** 2 to 20 characters, each an ASCII letter or a whitespace character. */
  predicate WellFormedName(s: string) {
    && 2 <= |s| <= 20
    && forall i :: 0 <= i < |s| ==> IsAsciiLetter(s[i]) || IsJsWhitespace(s[i])
  }

  /** Exactly 12 ASCII decimal digits. */
  predicate WellFormedRegNumber(s: string) {
    && |s| == 12
    && forall i :: 0 <= i < |s| ==> IsDigit(s[i])
  }

  /** The date on which someone born on `dob` turns 18. */
  function EighteenthBirthday(dob: Date): Date {
    Date(dob.year + 18, dob.month, dob.day)
  }

  /** The source's date-of-birth rule: reject when the birth date lies after
      today, when the years differ by less than 18, or when they differ by
      exactly 18 and today's month and day come before the birth month and
      day. This amounts to: the 18th birthday is on or before today. */
  function DobRule(dob: Date, today: Date): (ok: bool)
    ensures ok <==> !Before(today, EighteenthBirthday(dob))
  {
    var age := today.year - dob.year;
    var monthDiff := today.month - dob.month;
    var dayDiff := today.day - dob.day;
    !(Before(today, dob) || age < 18 || (age == 18 && (monthDiff < 0 || (monthDiff == 0 && dayDiff < 0))))
  }

  /** The future-date clause never decides anything: every date of birth it
      rejects is already rejected by the age clauses. */
  lemma FutureClauseRedundant(dob: Date, today: Date)
    ensures Before(today, dob) ==> !DobRule(dob, today)
    ensures var age := today.year - dob.year;
      Before(today, dob) ==> age < 18 || (age == 18 && (today.month < dob.month || (today.month == dob.month && today.day < dob.day)))
  {
  }

  /** Once old enough, always old enough. */
  lemma DobRuleMonotone(dob: Date, t1: Date, t2: Date)
    requires DobRule(dob, t1) && !Before(t2, t1)
    ensures DobRule(dob, t2)
  {
  }

  /** The boundary: accepted on the 18th birthday, rejected the day before. */
  lemma DobRuleBoundary(dob: Date, today: Date)
    requires ValidDate(today) && NextDay(today) == EighteenthBirthday(dob)
    ensures !DobRule(dob, today)
    ensures DobRule(dob, NextDay(today))
  {
  }

  /** An age above 18 is accepted whatever the month and day; only the
      exactly-18 case looks at them. */
  lemma OlderThanEighteenAccepted(dob: Date, today: Date)
    requires today.year - dob.year > 18
    ensures DobRule(dob, today)
  {
  }

  /** With today fixed at 15 June 2024: born 15 June 2006 and 14 June 2006
      pass, 16 June 2006, 1 January 2010 and 1 January 2025 fail. */
  lemma DobRuleExamples()
    ensures DobRule(Date(2006, 6, 15), Date(2024, 6, 15))
    ensures DobRule(Date(2006, 6, 14), Date(2024, 6, 15))
    ensures !DobRule(Date(2006, 6, 16), Date(2024, 6, 15))
    ensures !DobRule(Date(2010, 1, 1), Date(2024, 6, 15))
    ensures !DobRule(Date(2025, 1, 1), Date(2024, 6, 15))
  {
  }

  /** The validator, with a missing date of birth rejected. */
  function Validate(d: Draft, today: Date): (v: Verdict)
    ensures v == Reject(InvalidName) <==> !WellFormedName(d.name)
    ensures v == Reject(InvalidRegNumber) <==> WellFormedName(d.name) && !WellFormedRegNumber(d.regNumber)
    ensures v == Reject(InvalidDateOfBirth) <==>
      && WellFormedName(d.name) && WellFormedRegNumber(d.regNumber)
      && (d.dob.None? || Before(today, EighteenthBirthday(d.dob.value)))
    ensures v == Accept <==>
      && WellFormedName(d.name) && WellFormedRegNumber(d.regNumber)
      && d.dob.Some? && !Before(today, EighteenthBirthday(d.dob.value))
  {
    if !Test(NamePattern, d.name) then Reject(InvalidName)
    else if !Test(RegNumberPattern, d.regNumber) then Reject(InvalidRegNumber)
    else match d.dob
      case None => Reject(InvalidDateOfBirth)
      case Some(dob) => if DobRule(dob, today) then Accept else Reject(InvalidDateOfBirth)
  }

  /** The validator as the source writes it: a missing date of birth parses
      to an invalid date, every comparison against it is false, and the
      draft is accepted. */
  function ValidateAsWritten(d: Draft, today: Date): (v: Verdict)
    ensures v == Accept <==>
      && WellFormedName(d.name) && WellFormedRegNumber(d.regNumber)
      && (d.dob.None? || !Before(today, EighteenthBirthday(d.dob.value)))
    ensures d.dob.Some? ==> v == Validate(d, today)
    ensures v.Reject? ==> v == Validate(d, today)
  {
    if !Test(NamePattern, d.name) then Reject(InvalidName)
    else if !Test(RegNumberPattern, d.regNumber) then Reject(InvalidRegNumber)
    else match d.dob
      case None => Accept
      case Some(dob) => if DobRule(dob, today) then Accept else Reject(InvalidDateOfBirth)
  }

  /** The sample name and registration number used below are well formed. */
  lemma SampleFieldsWellFormed()
    ensures WellFormedName("Abc R")
    ensures WellFormedRegNumber("210412345678")
  {
    var name, number := "Abc R", "210412345678";
    assert forall i :: 0 <= i < |name| ==> IsAsciiLetter(name[i]) || name[i] == ' ';
    assert forall i :: 0 <= i < |number| ==> IsDigit(number[i]);
  }

  /** A draft with a valid name and registration number but no date of
      birth: the source accepts it, the corrected validator does not. */
  lemma MissingDobSlipsThrough(today: Date)
    ensures var d := EmptyDraft.(name := "Abc R", regNumber := "210412345678");
      && ValidateAsWritten(d, today) == Accept
      && Validate(d, today) == Reject(InvalidDateOfBirth)
  {
    SampleFieldsWellFormed();
  }

  /** Only the name, the registration number and the date of birth are
      examined: drafts agreeing on those get the same verdict. */
  lemma ValidateReadsThreeFields(d1: Draft, d2: Draft, today: Date)
    requires d1.name == d2.name && d1.regNumber == d2.regNumber && d1.dob == d2.dob
    ensures Validate(d1, today) == Validate(d2, today)
    ensures ValidateAsWritten(d1, today) == ValidateAsWritten(d2, today)
  {
  }
}
