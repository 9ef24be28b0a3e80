/** The draft registration record and the change handler that edits it.
    The source keeps the draft as one state object and updates it through a
    single handler keyed by the input's name; here each input becomes one
    constructor of `Update`, and the handler a pure function on records. */
module Records {
  import opened Calendar
  import opened Lists

  datatype Option<T> = None | Some(value: T)

  /** The four department radio buttons. */
  datatype Department = CSE | IT | AIDS | CSBS

  /** The six tech-stack checkboxes. */
  datatype TechStack =
    | FrontendDeveloper
    | Backend
    | DatabaseAdministrator
    | SoftwareDeveloper
    | BusinessAnalyst
    | DataAnalyst

  /** A selected file, of which only the name is ever read. */
  datatype ResumeFile = ResumeFile(fileName: string)

  /** The form's draft. `None` stands for the source's empty string in the
      department, date-of-birth and resume fields (and, for the resume, for
      the `undefined` of a file selection that was cancelled). The CGPA is
      the number input's raw text. */
  datatype Draft = Draft(
    name: string,
    regNumber: string,
    department: Option<Department>,
    cgpa: string,
    dob: Option<Date>,
    techStacks: seq<TechStack>,
    areaOfInterest: string,
    resume: Option<ResumeFile>)

  /** The record the form starts with and returns to after a submission. */
  const EmptyDraft := Draft("", "", None, "", None, [], "", None)

  datatype Field =
    | NameField
    | RegNumberField
    | DepartmentField
    | CgpaField
    | DobField
    | TechStacksField
    | AreaOfInterestField
    | ResumeField

  /** One change event: the input that fired and what it carries. */
  datatype Update =
    | SetName(text: string)
    | SetRegNumber(text: string)
    | SetDepartment(department: Department)
    | SetCgpa(text: string)
    | SetDob(date: Option<Date>)
    | CheckTechStack(stack: TechStack, checked: bool)
    | SetAreaOfInterest(text: string)
    | SetResume(file: Option<ResumeFile>)

  /** The draft field an update writes. */
  function Target(u: Update): Field {
    match u
    case SetName(_) => NameField
    case SetRegNumber(_) => RegNumberField
    case SetDepartment(_) => DepartmentField
    case SetCgpa(_) => CgpaField
    case SetDob(_) => DobField
    case CheckTechStack(_, _) => TechStacksField
    case SetAreaOfInterest(_) => AreaOfInterestField
    case SetResume(_) => ResumeField
  }

  /** `a` and `b` agree on every field except possibly `f`. */
  predicate SameExcept(a: Draft, b: Draft, f: Field) {
    && (f == NameField || a.name == b.name)
    && (f == RegNumberField || a.regNumber == b.regNumber)
    && (f == DepartmentField || a.department == b.department)
    && (f == CgpaField || a.cgpa == b.cgpa)
    && (f == DobField || a.dob == b.dob)
    && (f == TechStacksField || a.techStacks == b.techStacks)
    && (f == AreaOfInterestField || a.areaOfInterest == b.areaOfInterest)
    && (f == ResumeField || a.resume == b.resume)
  }

  /** The change handler: a file input stores its selected file, a checkbox
      appends or filters out its value, every other input replaces its
      field. */
  function Apply(d: Draft, u: Update): (r: Draft)
    ensures SameExcept(d, r, Target(u))
  {
    match u
    case SetName(t) => d.(name := t)
    case SetRegNumber(t) => d.(regNumber := t)
    case SetDepartment(dep) => d.(department := Some(dep))
    case SetCgpa(t) => d.(cgpa := t)
    case SetDob(date) => d.(dob := date)
    case CheckTechStack(stack, checked) => d.(techStacks := Toggle(d.techStacks, stack, checked))
    case SetAreaOfInterest(t) => d.(areaOfInterest := t)
    case SetResume(file) => d.(resume := file)
  }

  /** A replacing update leaves its field holding exactly the new value. */
  lemma ApplyStoresValue(d: Draft, u: Update)
    ensures u.SetName? ==> Apply(d, u).name == u.text
    ensures u.SetRegNumber? ==> Apply(d, u).regNumber == u.text
    ensures u.SetCgpa? ==> Apply(d, u).cgpa == u.text
    ensures u.SetAreaOfInterest? ==> Apply(d, u).areaOfInterest == u.text
    ensures u.SetDepartment? ==> Apply(d, u).department == Some(u.department)
    ensures u.SetDob? ==> Apply(d, u).dob == u.date
    ensures u.SetResume? ==> Apply(d, u).resume == u.file
  {
  }

  /** Repeating an update is a no-op, except for checking a box, which
      appends its value once more. */
  lemma ApplyIdempotent(d: Draft, u: Update)
    requires !(u.CheckTechStack? && u.checked)
    ensures Apply(Apply(d, u), u) == Apply(d, u)
  {
    if u.CheckTechStack? {
      RemoveAllIdempotent(d.techStacks, u.stack);
    }
  }

  /** Checking a box twice is not idempotent: the value is listed twice. */
  lemma CheckTwiceDuplicates(d: Draft, s: TechStack)
    ensures var r := Apply(Apply(d, CheckTechStack(s, true)), CheckTechStack(s, true));
      r.techStacks == d.techStacks + [s, s] && !NoDup(r.techStacks)
  {
  }

  /** Checking a clear box and then clearing it restores the draft. */
  lemma CheckThenUncheckRestores(d: Draft, s: TechStack)
    requires s !in d.techStacks
    ensures Apply(Apply(d, CheckTechStack(s, true)), CheckTechStack(s, false)) == d
  {
    CheckThenUncheck(d.techStacks, s);
  }

  /** The checkbox's `checked` attribute shows whether the value is listed,
      so its change event carries the negation. */
  predicate ConsistentWith(d: Draft, u: Update) {
    u.CheckTechStack? ==> u.checked == (u.stack !in d.techStacks)
  }

  /** Under that discipline the tech-stack list never holds a duplicate. */
  lemma ApplyKeepsNoDup(d: Draft, u: Update)
    requires NoDup(d.techStacks) && ConsistentWith(d, u)
    ensures NoDup(Apply(d, u).techStacks)
  {
    if u.CheckTechStack? {
      ToggleKeepsNoDup(d.techStacks, u.stack, u.checked);
    }
  }
}
