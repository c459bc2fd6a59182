/**
 The candidate recruitment form: field edits, the four validation rules, and the submit step
 that either reports the failing fields or clears the form.
 */
module Recruit {
  import opened Wrappers
  import opened Text
  import opened Numerals
  import opened EmailPatterns

  datatype Candidate = Candidate(
    fullName: string, email: string, phone: string, position: string,
    experience: string, resumeLink: string, notes: string)

  /** The `name` attribute of each input. */
  datatype Field = FullName | Email | Phone | Position | Experience | ResumeLink | Notes

  const InitialCandidate := Candidate("", "", "", "", "", "", "")

  const FullNameRequired := "Full name is required."
  const EmailInvalid := "Enter a valid email address."
  const PositionRequired := "Please select a position."
  const ExperienceNegative := "Experience cannot be negative."

  function Get(c: Candidate, f: Field): string {
    match f
    case FullName => c.fullName
    case Email => c.email
    case Phone => c.phone
    case Position => c.position
    case Experience => c.experience
    case ResumeLink => c.resumeLink
    case Notes => c.notes
  }

  /** `{ ...candidate, [name]: value }`. */
  function Set(c: Candidate, f: Field, v: string): (r: Candidate)
    ensures Get(r, f) == v
    ensures forall g :: g != f ==> Get(r, g) == Get(c, g)
  {
    match f
    case FullName => c.(fullName := v)
    case Email => c.(email := v)
    case Phone => c.(phone := v)
    case Position => c.(position := v)
    case Experience => c.(experience := v)
    case ResumeLink => c.(resumeLink := v)
    case Notes => c.(notes := v)
  }

  /**
   The experience rule: a non-empty entry whose numeric value is below zero. Entries that are not
   integers are not negative here (see README).
   */
  predicate NegativeExperience(s: string) {
    s != [] && var v := ParseInt(s); v.Some? && v.value < 0
  }

  const AllFields: set<Field> := {FullName, Email, Phone, Position, Experience, ResumeLink, Notes}

  /** Whether one field breaks its rule, as `validate` tests it. */
  predicate Fails(c: Candidate, f: Field) {
    match f
    case FullName => Trim(c.fullName) == []
    case Email => Trim(c.email) == [] || !ValidateEmail(c.email)
    case Position => Trim(c.position) == []
    case Experience => NegativeExperience(c.experience)
    case _ => false
  }

  function Message(f: Field): string {
    match f
    case FullName => FullNameRequired
    case Email => EmailInvalid
    case Position => PositionRequired
    case Experience => ExperienceNegative
    case _ => ""
  }

  /** `validate`: only the four checked fields can fail, each with its own message. */
  function Validate(c: Candidate): (e: map<Field, string>)
    ensures Phone !in e && ResumeLink !in e && Notes !in e
    ensures forall f :: f in e ==> e[f] == Message(f) && e[f] != ""
  {
    map f | f in AllFields && Fails(c, f) :: Message(f)
  }

  /** A field is reported exactly when it breaks its rule. */
  lemma ReportedIffFails(c: Candidate, f: Field)
    ensures f in Validate(c) <==> Fails(c, f)
  {
    assert f in AllFields;
  }

  /** Full name: reported exactly when blank. */
  lemma FullNameRule(c: Candidate)
    ensures FullName in Validate(c) <==> IsBlank(c.fullName)
  {
    ReportedIffFails(c, FullName);
    TrimEmptyIffBlank(c.fullName);
  }

  /** Email: reported exactly when it is not a well-formed address; a blank one never is. */
  lemma EmailRule(c: Candidate)
    ensures Email in Validate(c) <==> !ValidateEmail(c.email)
  {
    ReportedIffFails(c, Email);
    TrimEmptyIffBlank(c.email);
    if IsBlank(c.email) {
      BlankFailsStrict(c.email);
    }
  }

  /** Position: reported exactly when blank. */
  lemma PositionRule(c: Candidate)
    ensures Position in Validate(c) <==> IsBlank(c.position)
  {
    ReportedIffFails(c, Position);
    TrimEmptyIffBlank(c.position);
  }

  /** Experience: reported exactly when a negative number was entered. */
  lemma ExperienceRule(c: Candidate)
    ensures Experience in Validate(c) <==> NegativeExperience(c.experience)
  {
    ReportedIffFails(c, Experience);
  }

  /** A candidate passes exactly when name and position are filled, the email is well formed and the experience is not negative. */
  lemma ValidIff(c: Candidate)
    ensures |Validate(c)| == 0 <==>
      !IsBlank(c.fullName) && ValidateEmail(c.email) && !IsBlank(c.position) && !NegativeExperience(c.experience)
  {
    var e := Validate(c);
    FullNameRule(c);
    EmailRule(c);
    PositionRule(c);
    ExperienceRule(c);
    if |e| == 0 {
      assert FullName !in e && Email !in e && Position !in e && Experience !in e;
    } else {
      var f :| f in e;
    }
  }

  /** Whole-number experience entries: blank or non-negative pass, negative fails. */
  lemma ExperienceOfWholeNumber(n: int)
    ensures NegativeExperience(IntToString(n)) <==> n < 0
    ensures !NegativeExperience("")
  {
    IntRoundTrip(n);
  }

  datatype Form = Form(candidate: Candidate, errors: map<Field, string>, submitting: bool)

  const InitialForm := Form(InitialCandidate, map[], false)

  /** `handleChange`: the edited field takes the new value and its error is blanked. */
  function HandleChange(s: Form, f: Field, v: string): (r: Form)
    ensures Get(r.candidate, f) == v
    ensures forall g :: g != f ==> Get(r.candidate, g) == Get(s.candidate, g)
    ensures f in r.errors && r.errors[f] == ""
    ensures forall g :: g != f ==> (g in r.errors <==> g in s.errors)
    ensures forall g :: g != f && g in s.errors ==> r.errors[g] == s.errors[g]
    ensures r.submitting == s.submitting
  {
    Form(Set(s.candidate, f, v), s.errors[f := ""], s.submitting)
  }

  datatype Toast = ValidationError | Submitted(name: string)

  datatype Submission = Submission(form: Form, toast: Toast)

  /**
   `handleSubmit` from start to finish: with errors, they replace the shown errors and the entries
   stay; otherwise the thank-you names the candidate and the entries are reset.
   */
  function HandleSubmit(s: Form): (r: Submission)
    ensures |Validate(s.candidate)| > 0 ==>
      r.form == s.(errors := Validate(s.candidate)) && r.toast == ValidationError
    ensures |Validate(s.candidate)| == 0 ==>
      r.form.candidate == InitialCandidate && r.form.errors == s.errors && !r.form.submitting
      && r.toast == Submitted(s.candidate.fullName)
  {
    var e := Validate(s.candidate);
    if |e| > 0 then Submission(s.(errors := e), ValidationError)
    else Submission(Form(InitialCandidate, s.errors, false), Submitted(s.candidate.fullName))
  }

  /** The entries are reset exactly when the candidate passed validation. */
  lemma SubmitResetsIffValid(s: Form)
    requires s.candidate != InitialCandidate
    ensures HandleSubmit(s).form.candidate == InitialCandidate <==> |Validate(s.candidate)| == 0
  {
  }

  /** A form that was just cleared fails: name, email and position are all reported. */
  lemma EmptyFormFails()
    ensures var e := Validate(InitialCandidate);
            FullName in e && Email in e && Position in e && Experience !in e
  {
    FullNameRule(InitialCandidate);
    EmailRule(InitialCandidate);
    PositionRule(InitialCandidate);
    ExperienceRule(InitialCandidate);
  }
}
