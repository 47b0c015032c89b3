/** The add/edit student form: its field values, the per-field error
    messages, the validation run on submit, and the edit handler that
    clears a field's error as the field is typed into. */
module StudentForm {
  import opened Common
  import opened Text
  import opened Types

  datatype Field = Name | Email | RollNumber | ClassName | Section | DateOfBirth | Guardian | GuardianContact

  /** The form's values, all text as the inputs hold them. */
  datatype FormData = FormData(
    name: string,
    email: string,
    rollNumber: string,
    className: string,
    section: string,
    dateOfBirth: string,
    guardian: string,
    guardianContact: string)

  function Get(d: FormData, f: Field): string {
    match f
    case Name => d.name
    case Email => d.email
    case RollNumber => d.rollNumber
    case ClassName => d.className
    case Section => d.section
    case DateOfBirth => d.dateOfBirth
    case Guardian => d.guardian
    case GuardianContact => d.guardianContact
  }

  /** `{ ...prev, [field]: value }`: that field takes the value, every other
      field keeps its own. */
  function Set(d: FormData, f: Field, v: string): (r: FormData)
    ensures Get(r, f) == v
    ensures forall g :: g != f ==> Get(r, g) == Get(d, g)
  {
    match f
    case Name => d.(name := v)
    case Email => d.(email := v)
    case RollNumber => d.(rollNumber := v)
    case ClassName => d.(className := v)
    case Section => d.(section := v)
    case DateOfBirth => d.(dateOfBirth := v)
    case Guardian => d.(guardian := v)
    case GuardianContact => d.(guardianContact := v)
  }

  // ---------------------------------------------------------------------------
  // The email pattern /\S+@\S+\.\S+/ (unanchored)

  /** `s[lo..hi]` is a non-empty run of non-white-space characters. */
  predicate NonSpaceRun(s: string, lo: int, hi: int) {
    0 <= lo < hi <= |s| && forall k :: lo <= k < hi ==> !IsSpace(s[k])
  }

  /** The pattern matched at some place of `s`, as the regular expression
      reads: a run, "@", a run, ".", a run. */
  ghost predicate EmailPatternAt(s: string, a: int, i: int, j: int, e: int) {
    && NonSpaceRun(s, a, i)
    && i < |s| && s[i] == '@'
    && NonSpaceRun(s, i + 1, j)
    && j < |s| && s[j] == '.'
    && NonSpaceRun(s, j + 1, e)
  }

  ghost predicate MatchesEmailPattern(s: string) {
    exists a, i, j, e :: EmailPatternAt(s, a, i, j, e)
  }

  /** After an "@" whose run starts at `start`: a "." at `j`, with the
      non-empty run `s[start..j]` before it and a non-space character after
      it. */
  ghost predicate DotAt(s: string, start: int, j: int) {
    && NonSpaceRun(s, start, j)
    && j + 1 < |s| && s[j] == '.' && !IsSpace(s[j + 1])
  }

  /** An "@" at `i` with a non-space character before it, followed by a
      "." as `DotAt` says: the outer runs need only one character. */
  ghost predicate EmailAt(s: string, i: int, j: int) {
    1 <= i < |s| && s[i] == '@' && !IsSpace(s[i - 1]) && DotAt(s, i + 1, j)
  }

  /** The scan for the "." after an "@": from `k` on, over non-space
      characters, the first "." past the start of the run that has a
      non-space character after it. */
  function DotAfter(s: string, start: nat, k: nat): bool
    decreases |s| - k
  {
    if k >= |s| || IsSpace(s[k]) then false
    else if k > start && s[k] == '.' && k + 1 < |s| && !IsSpace(s[k + 1]) then true
    else DotAfter(s, start, k + 1)
  }

  /** The scan for an "@" from position `i` on. */
  function EmailFrom(s: string, i: nat): bool
    decreases |s| - i
  {
    if i >= |s| then false
    else if 1 <= i && s[i] == '@' && !IsSpace(s[i - 1]) && DotAfter(s, i + 1, i + 1) then true
    else EmailFrom(s, i + 1)
  }

  /** The test the form runs: `/\S+@\S+\.\S+/.test(s)`. */
  predicate LooksLikeEmail(s: string) {
    EmailFrom(s, 0)
  }

  /** Given a non-space run from `start` to `k`, the "." scan succeeds
      exactly when a "." completes the run at `k` or later. */
  lemma {:induction false} DotAfterFinds(s: string, start: nat, k: nat)
    requires start <= k
    requires forall m :: start <= m < k && m < |s| ==> !IsSpace(s[m])
    ensures DotAfter(s, start, k) <==> exists j :: k <= j && DotAt(s, start, j)
    decreases |s| - k
  {
    if k >= |s| || IsSpace(s[k]) {
    } else if k > start && s[k] == '.' && k + 1 < |s| && !IsSpace(s[k + 1]) {
      assert DotAt(s, start, k);
    } else {
      DotAfterFinds(s, start, k + 1);
      if exists j :: k <= j && DotAt(s, start, j) {
        var j :| k <= j && DotAt(s, start, j);
        assert k + 1 <= j;
      }
    }
  }

  /** The "@" scan succeeds exactly when some "@" at `i` or later starts a
      match. */
  lemma {:induction false} EmailFromFinds(s: string, i: nat)
    ensures EmailFrom(s, i) <==> exists a, j :: i <= a && EmailAt(s, a, j)
    decreases |s| - i
  {
    if i < |s| {
      EmailFromFinds(s, i + 1);
      var here := 1 <= i && s[i] == '@' && !IsSpace(s[i - 1]);
      if here {
        DotAfterFinds(s, i + 1, i + 1);
        if DotAfter(s, i + 1, i + 1) {
          var j :| i + 1 <= j && DotAt(s, i + 1, j);
          assert EmailAt(s, i, j);
        }
      }
      if exists a, j :: i <= a && EmailAt(s, a, j) {
        var a, j :| i <= a && EmailAt(s, a, j);
        if a == i {
          DotAfterFinds(s, i + 1, i + 1);
          assert DotAfter(s, i + 1, i + 1);
        } else {
          assert EmailFrom(s, i + 1);
        }
      }
    }
  }

  /** The test accepts exactly the texts the regular expression matches. */
  lemma EmailTestMatchesPattern(s: string)
    ensures LooksLikeEmail(s) <==> MatchesEmailPattern(s)
  {
    EmailFromFinds(s, 0);
    if LooksLikeEmail(s) {
      var i, j :| 0 <= i && EmailAt(s, i, j);
      assert EmailPatternAt(s, i - 1, i, j, j + 2);
    }
    if MatchesEmailPattern(s) {
      var a, i, j, e :| EmailPatternAt(s, a, i, j, e);
      assert !IsSpace(s[i - 1]) && !IsSpace(s[j + 1]);
      assert EmailAt(s, i, j);
    }
  }

  /** A white-space-only text does not look like an email. */
  lemma BlankIsNoEmail(s: string)
    requires AllSpace(s)
    ensures !LooksLikeEmail(s)
  {
    EmailFromFinds(s, 0);
  }

  // ---------------------------------------------------------------------------
  // The contact pattern /^\+?[\d\s-()]+$/

  /** A digit, white space, "-", "(" or ")". The `-` between `\s` and `(`
      cannot form a range with a class escape, so it stands for itself. */
  predicate IsContactChar(c: char) {
    IsDigit(c) || IsSpace(c) || c == '-' || c == '(' || c == ')'
  }

  /** An optional leading "+" and then at least one contact character, to
      the end. */
  predicate IsContactNumber(s: string) {
    if |s| > 0 && s[0] == '+' then AllContactChars(s[1..]) else AllContactChars(s)
  }

  /** `[\d\s-()]+`: at least one contact character, and nothing else. */
  predicate AllContactChars(t: string) {
    t != [] && forall k :: 0 <= k < |t| ==> IsContactChar(t[k])
  }

  /** "+" alone is refused, and so is a contact with a letter in it. */
  lemma ContactNumberExamples()
    ensures !IsContactNumber("+")
    ensures !IsContactNumber("555-CALL")
  {
    assert "+"[1..] == [];
    var s := "555-CALL";
    assert s[0] == '5' && !IsContactChar(s[4]);
  }

  // ---------------------------------------------------------------------------
  // Validation

  /** The error a field gets, if any: the required check first, then the
      format check for email and guardian contact. Name, roll number,
      guardian and contact are required after trimming; class, section and
      date of birth only need to be non-empty; email and contact are matched
      untrimmed. */
  function FieldError(d: FormData, f: Field): Option<string> {
    match f
    case Name => if Trim(d.name) == "" then Some("Name is required") else None
    case Email =>
      if Trim(d.email) == "" then Some("Email is required")
      else if !LooksLikeEmail(d.email) then Some("Email is invalid")
      else None
    case RollNumber => if Trim(d.rollNumber) == "" then Some("Roll number is required") else None
    case ClassName => if d.className == "" then Some("Class is required") else None
    case Section => if d.section == "" then Some("Section is required") else None
    case DateOfBirth => if d.dateOfBirth == "" then Some("Date of birth is required") else None
    case Guardian => if Trim(d.guardian) == "" then Some("Guardian name is required") else None
    case GuardianContact =>
      if Trim(d.guardianContact) == "" then Some("Guardian contact is required")
      else if !IsContactNumber(d.guardianContact) then Some("Invalid contact number")
      else None
  }

  /** `errs` with the field's error added, if it has one: one
      `if (…) newErrors.field = message` of the validation. */
  function AddError(errs: map<Field, string>, f: Field, e: Option<string>): map<Field, string> {
    if e.Some? then errs[f := e.value] else errs
  }

  /** The eight per-field outcomes folded into a map in the order of the
      form. */
  function ErrorMap(name: Option<string>, email: Option<string>, rollNumber: Option<string>,
                    className: Option<string>, section: Option<string>, dateOfBirth: Option<string>,
                    guardian: Option<string>, guardianContact: Option<string>): map<Field, string>
  {
    var e1 := AddError(map[], Name, name);
    var e2 := AddError(e1, Email, email);
    var e3 := AddError(e2, RollNumber, rollNumber);
    var e4 := AddError(e3, ClassName, className);
    var e5 := AddError(e4, Section, section);
    var e6 := AddError(e5, DateOfBirth, dateOfBirth);
    var e7 := AddError(e6, Guardian, guardian);
    AddError(e7, GuardianContact, guardianContact)
  }

  /** The error map validation produces. */
  function ExpectedErrors(d: FormData): map<Field, string> {
    ErrorMap(FieldError(d, Name), FieldError(d, Email), FieldError(d, RollNumber), FieldError(d, ClassName),
      FieldError(d, Section), FieldError(d, DateOfBirth), FieldError(d, Guardian), FieldError(d, GuardianContact))
  }

  /** A field's entry in the folded map is its own outcome. */
  lemma ErrorMapAt(outcomes: map<Field, Option<string>>, f: Field)
    requires forall g :: g in outcomes
    ensures var m := ErrorMap(outcomes[Name], outcomes[Email], outcomes[RollNumber], outcomes[ClassName],
      outcomes[Section], outcomes[DateOfBirth], outcomes[Guardian], outcomes[GuardianContact]);
      && (f in m <==> outcomes[f].Some?)
      && (f in m ==> m[f] == outcomes[f].value)
  {
    var e1 := AddError(map[], Name, outcomes[Name]);
    var e2 := AddError(e1, Email, outcomes[Email]);
    var e3 := AddError(e2, RollNumber, outcomes[RollNumber]);
    var e4 := AddError(e3, ClassName, outcomes[ClassName]);
    var e5 := AddError(e4, Section, outcomes[Section]);
    var e6 := AddError(e5, DateOfBirth, outcomes[DateOfBirth]);
    var e7 := AddError(e6, Guardian, outcomes[Guardian]);
    AddErrorAt(map[], Name, outcomes[Name], f);
    AddErrorAt(e1, Email, outcomes[Email], f);
    AddErrorAt(e2, RollNumber, outcomes[RollNumber], f);
    AddErrorAt(e3, ClassName, outcomes[ClassName], f);
    AddErrorAt(e4, Section, outcomes[Section], f);
    AddErrorAt(e5, DateOfBirth, outcomes[DateOfBirth], f);
    AddErrorAt(e6, Guardian, outcomes[Guardian], f);
    AddErrorAt(e7, GuardianContact, outcomes[GuardianContact], f);
  }

  /** Adding the outcome of field `g` touches only the entry of `g`. */
  lemma AddErrorAt(errs: map<Field, string>, g: Field, e: Option<string>, f: Field)
    ensures f in AddError(errs, g, e) <==> (f == g && e.Some?) || f in errs
    ensures f in AddError(errs, g, e) ==>
      AddError(errs, g, e)[f] == if f == g && e.Some? then e.value else errs[f]
  {
  }

  /** Each field has an entry exactly when it fails, holding its one
      message: the required message pre-empts the format message. */
  lemma ExpectedErrorsAt(d: FormData, f: Field)
    ensures f in ExpectedErrors(d) <==> FieldError(d, f).Some?
    ensures f in ExpectedErrors(d) ==> ExpectedErrors(d)[f] == FieldError(d, f).value
  {
    var outcomes := map g | g in {Name, Email, RollNumber, ClassName, Section, DateOfBirth, Guardian, GuardianContact}
      :: FieldError(d, g);
    forall g ensures g in outcomes {
      match g {
        case Name =>
        case Email =>
        case RollNumber =>
        case ClassName =>
        case Section =>
        case DateOfBirth =>
        case Guardian =>
        case GuardianContact =>
      }
    }
    ErrorMapAt(outcomes, f);
  }

  /** A form with no error has every required field filled, an email that
      passes the test and a contact number. */
  lemma ValidFormFilled(d: FormData)
    requires ExpectedErrors(d) == map[]
    ensures Trim(d.name) != "" && Trim(d.rollNumber) != "" && Trim(d.guardian) != ""
    ensures d.className != "" && d.section != "" && d.dateOfBirth != ""
    ensures LooksLikeEmail(d.email)
    ensures Trim(d.guardianContact) != "" && IsContactNumber(d.guardianContact)
  {
    ExpectedErrorsAt(d, Name);
    ExpectedErrorsAt(d, Email);
    ExpectedErrorsAt(d, RollNumber);
    ExpectedErrorsAt(d, ClassName);
    ExpectedErrorsAt(d, Section);
    ExpectedErrorsAt(d, DateOfBirth);
    ExpectedErrorsAt(d, Guardian);
    ExpectedErrorsAt(d, GuardianContact);
  }

  /** Conversely, such a form passes validation. A blank contact matches
      the contact pattern, so it is the required check that refuses it. */
  lemma FilledFormValid(d: FormData)
    requires Trim(d.name) != "" && Trim(d.rollNumber) != "" && Trim(d.guardian) != ""
    requires d.className != "" && d.section != "" && d.dateOfBirth != ""
    requires LooksLikeEmail(d.email)
    requires Trim(d.guardianContact) != "" && IsContactNumber(d.guardianContact)
    ensures ExpectedErrors(d) == map[]
  {
    TrimEmpty(d.email);
    if AllSpace(d.email) {
      BlankIsNoEmail(d.email);
    }
    forall f ensures f !in ExpectedErrors(d) {
      ExpectedErrorsAt(d, f);
    }
  }

  /** An error is shown under a field when it is present and non-empty
      (`errors.name && <p>…`). */
  predicate Shows(errors: map<Field, string>, f: Field) {
    f in errors && errors[f] != ""
  }

  /** The form's state: the values and the error map shown. */
  class StudentFormState {
    var formData: FormData
    var errors: map<Field, string>

    /** A new form is empty; an edit form starts from the student's values.
        The student record has no email or date of birth, so those two
        always start empty. */
    constructor (student: Option<Student>)
      ensures student.None? ==> formData == FormData("", "", "", "", "", "", "", "")
      ensures student.Some? ==> formData == FormData(student.value.name, "", student.value.rollNumber,
        student.value.className, student.value.section, "", student.value.guardian, student.value.guardianContact)
      ensures errors == map[]
    {
      if student.Some? {
        var s := student.value;
        formData := FormData(s.name, "", s.rollNumber, s.className, s.section, "", s.guardian, s.guardianContact);
      } else {
        formData := FormData("", "", "", "", "", "", "", "");
      }
      errors := map[];
    }

    /** `validateForm`: the checks run field by field, in the order of the
        form, into a fresh map, which replaces the shown errors; the answer
        is whether it stayed empty. Each field's check is `FieldError`. */
    method ValidateForm() returns (valid: bool)
      modifies this
      ensures formData == old(formData)
      ensures errors == ExpectedErrors(formData)
      ensures valid <==> errors == map[]
    {
      var newErrors: map<Field, string> := map[];
      newErrors := AddError(newErrors, Name, FieldError(formData, Name));
      newErrors := AddError(newErrors, Email, FieldError(formData, Email));
      newErrors := AddError(newErrors, RollNumber, FieldError(formData, RollNumber));
      newErrors := AddError(newErrors, ClassName, FieldError(formData, ClassName));
      newErrors := AddError(newErrors, Section, FieldError(formData, Section));
      newErrors := AddError(newErrors, DateOfBirth, FieldError(formData, DateOfBirth));
      newErrors := AddError(newErrors, Guardian, FieldError(formData, Guardian));
      newErrors := AddError(newErrors, GuardianContact, FieldError(formData, GuardianContact));
      errors := newErrors;
      valid := |newErrors| == 0;
      assert valid <==> newErrors == map[] by {
        if |newErrors| != 0 {
          var f :| f in newErrors;
        }
      }
    }

    /** `handleSubmit`: validation always runs; the values are handed to
        the caller's `onSubmit` exactly when it passes and no save is in
        progress. */
    method HandleSubmit(isLoading: bool) returns (submitted: Option<FormData>)
      modifies this
      ensures formData == old(formData)
      ensures errors == ExpectedErrors(formData)
      ensures submitted.Some? <==> errors == map[] && !isLoading
      ensures submitted.Some? ==> submitted.value == formData
    {
      var valid := ValidateForm();
      if valid && !isLoading {
        submitted := Some(formData);
      } else {
        submitted := None;
      }
    }

    /** `handleChange`: the field takes the new value, and a shown error on
        that field is blanked; nothing else changes. */
    method HandleChange(field: Field, value: string)
      modifies this
      ensures formData == Set(old(formData), field, value)
      ensures errors == if Shows(old(errors), field) then old(errors)[field := ""] else old(errors)
      ensures !Shows(errors, field)
      ensures forall g :: g != field ==> Get(formData, g) == Get(old(formData), g)
      ensures forall g :: g != field ==> (g in errors <==> g in old(errors))
      ensures forall g :: g != field && g in errors ==> errors[g] == old(errors)[g]
    {
      formData := Set(formData, field, value);
      if Shows(errors, field) {
        errors := errors[field := ""];
      }
    }
  }
}
