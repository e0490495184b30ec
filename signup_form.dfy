/** The client-side sign-up rules of frontend/src/pages/auth/SignupPage.tsx: the
    `validate` check of the form and the clearing of field errors in
    `handleChange`. The error state is a map from field to message; a field whose
    error the page sets to null is absent from the map. */
module SignupForm {
  import opened Common

  datatype Field = FirstName | LastName | NationalId | Phone | Email | Password | ConfirmPassword

  datatype Form = Form(
    firstName: string,
    lastName: string,
    nationalId: string,
    phone: string,
    email: string,
    password: string,
    confirmPassword: string)

  /** The page state `handleChange` touches: the form and the displayed errors. */
  datatype PageState = PageState(form: Form, errors: map<Field, string>)

  const FirstNameRequired := "First Name is required"
  const LastNameRequired := "Last Name is required"
  const NationalIdRequired := "National ID Number is required"
  const PhoneRequired := "Mobile Number is required"
  const EmailRequired := "Email is required"
  const EmailInvalid := "Email address is invalid"
  const PasswordRequired := "Password is required"
  const PasswordTooShort := "Password must be at least 8 characters"
  const PasswordTooWeak := "Password must contain uppercase, lowercase, number, and special character"
  const PasswordsDiffer := "Passwords do not match"

  const MinPasswordLength := 8

  function Value(form: Form, f: Field): string
  {
    match f
    case FirstName => form.firstName
    case LastName => form.lastName
    case NationalId => form.nationalId
    case Phone => form.phone
    case Email => form.email
    case Password => form.password
    case ConfirmPassword => form.confirmPassword
  }

  /** `{ ...formData, [name]: value }`. */
  function SetField(form: Form, f: Field, v: string): (r: Form)
    ensures forall g :: Value(r, g) == if g == f then v else Value(form, g)
  {
    match f
    case FirstName => form.(firstName := v)
    case LastName => form.(lastName := v)
    case NationalId => form.(nationalId := v)
    case Phone => form.(phone := v)
    case Email => form.(email := v)
    case Password => form.(password := v)
    case ConfirmPassword => form.(confirmPassword := v)
  }

  /** The characters of the regular-expression class `\s`. */
  predicate IsSpace(c: char)
  {
    || c == ' ' || c == '\t' || c == '\n' || c == '\r' || c == '\U{0b}' || c == '\U{0c}'
    || c == '\U{a0}' || c == '\U{1680}' || ('\U{2000}' <= c <= '\U{200a}')
    || c == '\U{2028}' || c == '\U{2029}' || c == '\U{202f}' || c == '\U{205f}'
    || c == '\U{3000}' || c == '\U{feff}'
  }

  /** The characters the regular-expression `.` does not match. */
  predicate IsLineTerminator(c: char)
  {
    c == '\n' || c == '\r' || c == '\U{2028}' || c == '\U{2029}'
  }

  predicate NoSpaceBetween(s: string, lo: int, hi: int)
    requires 0 <= lo <= hi <= |s|
  {
    forall k :: lo <= k < hi ==> !IsSpace(s[k])
  }

  /** An '@' at p and a '.' at q with non-space characters before the '@', between
      the two and after the '.'. */
  predicate AddressAt(s: string, p: int, q: int)
  {
    && 0 < p && p + 1 < q && q + 1 < |s|
    && s[p] == '@' && s[q] == '.'
    && !IsSpace(s[p - 1]) && !IsSpace(s[q + 1])
    && NoSpaceBetween(s, p + 1, q)
  }

  /** `/\S+@\S+\.\S+/.test(s)`: somewhere in s a non-space character, an '@', one or
      more non-space characters, a '.' and a non-space character follow each other. */
  predicate EmailLike(s: string)
  {
    exists p, q | 0 < p < q < |s| :: AddressAt(s, p, q)
  }

  predicate IsDigit(c: char) { '0' <= c <= '9' }
  predicate IsLowerLetter(c: char) { 'a' <= c <= 'z' }
  predicate IsUpperLetter(c: char) { 'A' <= c <= 'Z' }
  predicate IsSpecial(c: char)
  {
    c == '!' || c == '@' || c == '#' || c == '$' || c == '%' || c == '^' || c == '&' || c == '*'
  }

  /** A character of class X at j, with no line terminator from i up to it. */
  predicate ClassAt(s: string, i: nat, j: nat, charClass: char -> bool)
  {
    i <= j < |s| && charClass(s[j]) && forall k | i <= k < j :: !IsLineTerminator(s[k])
  }

  /** The lookahead `(?=.*X)` at position i: a character of class X occurs at or after
      i with no line terminator before it. */
  predicate Ahead(s: string, i: nat, charClass: char -> bool)
  {
    exists j: nat | i <= j < |s| :: ClassAt(s, i, j, charClass)
  }

  /** All four lookaheads succeed at position i. */
  predicate AllAhead(s: string, i: nat)
  {
    && i <= |s|
    && Ahead(s, i, IsDigit) && Ahead(s, i, IsLowerLetter)
    && Ahead(s, i, IsUpperLetter) && Ahead(s, i, IsSpecial)
  }

  /** `/(?=.*\d)(?=.*[a-z])(?=.*[A-Z])(?=.*[!@#$%^&*])/.test(s)`: from some one
      position all four lookaheads succeed. */
  predicate Complex(s: string)
  {
    exists i: nat | i <= |s| :: AllAhead(s, i)
  }

  /** The message `validate` records for a field, if any: the four identity
      fields are required; the e-mail is required, else must look like an address;
      the password is required, else at least eight characters, else of all four
      character classes; the confirmation must equal the password. */
  function FieldError(form: Form, f: Field): Option<string>
  {
    match f
    case FirstName => if form.firstName == "" then Some(FirstNameRequired) else None
    case LastName => if form.lastName == "" then Some(LastNameRequired) else None
    case NationalId => if form.nationalId == "" then Some(NationalIdRequired) else None
    case Phone => if form.phone == "" then Some(PhoneRequired) else None
    case Email =>
      if form.email == "" then Some(EmailRequired)
      else if !EmailLike(form.email) then Some(EmailInvalid)
      else None
    case Password =>
      if form.password == "" then Some(PasswordRequired)
      else if |form.password| < MinPasswordLength then Some(PasswordTooShort)
      else if !Complex(form.password) then Some(PasswordTooWeak)
      else None
    case ConfirmPassword =>
      if form.password != form.confirmPassword then Some(PasswordsDiffer) else None
  }

  /** The message an error map shows for a field; None where the page shows none. */
  function Lookup(errors: map<Field, string>, f: Field): Option<string>
  {
    if f in errors then Some(errors[f]) else None
  }

  /** The result of recording field f's check over `errors`: f's message when the
      check fails, the other fields as they were. */
  predicate Recorded(form: Form, f: Field, errors: map<Field, string>, newErrors: map<Field, string>)
  {
    forall g :: Lookup(newErrors, g) == if g == f && FieldError(form, f).Some? then FieldError(form, f)
                                        else Lookup(errors, g)
  }

  predicate IsRequiredField(f: Field)
  {
    f.FirstName? || f.LastName? || f.NationalId? || f.Phone?
  }

  /** The four required-field checks that open `validate`, over an empty map. */
  method CheckRequired(form: Form) returns (newErrors: map<Field, string>)
    ensures forall g :: Lookup(newErrors, g) == if IsRequiredField(g) then FieldError(form, g) else None
  {
    newErrors := map[];
    if form.firstName == "" {
      newErrors := newErrors[FirstName := FirstNameRequired];
    }
    if form.lastName == "" {
      newErrors := newErrors[LastName := LastNameRequired];
    }
    if form.nationalId == "" {
      newErrors := newErrors[NationalId := NationalIdRequired];
    }
    if form.phone == "" {
      newErrors := newErrors[Phone := PhoneRequired];
    }
  }

  /** The e-mail branch of `validate`: required, else the address pattern. */
  method CheckEmail(form: Form, errors: map<Field, string>) returns (newErrors: map<Field, string>)
    ensures Recorded(form, Email, errors, newErrors)
  {
    newErrors := errors;
    if form.email == "" {
      newErrors := newErrors[Email := EmailRequired];
    } else if !EmailLike(form.email) {
      newErrors := newErrors[Email := EmailInvalid];
    }
  }

  /** The password branch of `validate`: required, else the length, else the
      character classes. */
  method CheckPassword(form: Form, errors: map<Field, string>) returns (newErrors: map<Field, string>)
    ensures Recorded(form, Password, errors, newErrors)
  {
    newErrors := errors;
    if form.password == "" {
      newErrors := newErrors[Password := PasswordRequired];
    } else if |form.password| < MinPasswordLength {
      newErrors := newErrors[Password := PasswordTooShort];
    } else if !Complex(form.password) {
      newErrors := newErrors[Password := PasswordTooWeak];
    }
  }

  /** `validate`: the field checks in order, each recording at most one message per
      field; the form is valid exactly when none was recorded. */
  method Validate(form: Form) returns (valid: bool, newErrors: map<Field, string>)
    ensures forall f :: Lookup(newErrors, f) == FieldError(form, f)
    ensures valid <==> newErrors == map[]
    ensures valid <==> forall f :: FieldError(form, f).None?
  {
    newErrors := CheckRequired(form);
    ghost var names := newErrors;
    newErrors := CheckEmail(form, newErrors);
    ghost var email := newErrors;
    newErrors := CheckPassword(form, newErrors);
    ghost var password := newErrors;
    if form.password != form.confirmPassword {
      newErrors := newErrors[ConfirmPassword := PasswordsDiffer];
    }
    forall f ensures Lookup(newErrors, f) == FieldError(form, f) {
      assert Lookup(newErrors, f) == if f == ConfirmPassword then FieldError(form, f) else Lookup(password, f);
      assert Lookup(password, f) == if f == Password then FieldError(form, f) else Lookup(email, f);
      assert Lookup(email, f) == if f == Email then FieldError(form, f) else Lookup(names, f);
      assert Lookup(names, f) == if IsRequiredField(f) then FieldError(form, f) else None;
    }
    valid := |newErrors| == 0;
    if forall f :: FieldError(form, f).None? {
      forall f ensures f !in newErrors {
        assert Lookup(newErrors, f) == FieldError(form, f);
      }
      assert newErrors.Keys == {};
    }
  }

  /** A form passes exactly when every name field is filled, the e-mail looks like
      an address, the password is at least eight characters and of all four
      classes, and the confirmation repeats it. */
  lemma PassesIff(form: Form)
    ensures (forall f :: FieldError(form, f).None?) <==>
              && form.firstName != "" && form.lastName != ""
              && form.nationalId != "" && form.phone != ""
              && form.email != "" && EmailLike(form.email)
              && |form.password| >= MinPasswordLength && Complex(form.password)
              && form.password == form.confirmPassword
  {
    if forall f :: FieldError(form, f).None? {
      assert FieldError(form, FirstName).None? && FieldError(form, LastName).None?;
      assert FieldError(form, NationalId).None? && FieldError(form, Phone).None?;
      assert FieldError(form, Email).None? && FieldError(form, Password).None?;
      assert FieldError(form, ConfirmPassword).None?;
    }
  }

  /** Each field shows the message of its first failing check: a too-weak password
      is at least eight characters long, and an invalid e-mail is not empty. */
  lemma FirstFailingCheckReported(form: Form)
    ensures FieldError(form, Password) == Some(PasswordTooWeak) <==>
              |form.password| >= MinPasswordLength && !Complex(form.password)
    ensures FieldError(form, Password) == Some(PasswordTooShort) <==>
              0 < |form.password| < MinPasswordLength
    ensures FieldError(form, Email) == Some(EmailInvalid) <==>
              form.email != "" && !EmailLike(form.email)
  {
  }

  /** On a single line the password check is the plain one: a digit, a lower-case
      and an upper-case letter and one of !@#$%^&* somewhere in the password. */
  lemma ComplexOnOneLine(s: string)
    requires forall k | 0 <= k < |s| :: !IsLineTerminator(s[k])
    ensures Complex(s) <==>
              && (exists j | 0 <= j < |s| :: IsDigit(s[j]))
              && (exists j | 0 <= j < |s| :: IsLowerLetter(s[j]))
              && (exists j | 0 <= j < |s| :: IsUpperLetter(s[j]))
              && (exists j | 0 <= j < |s| :: IsSpecial(s[j]))
  {
    if Complex(s) {
      var i: nat :| i <= |s| && AllAhead(s, i);
      var d: nat :| i <= d < |s| && ClassAt(s, i, d, IsDigit);
      var l: nat :| i <= l < |s| && ClassAt(s, i, l, IsLowerLetter);
      var u: nat :| i <= u < |s| && ClassAt(s, i, u, IsUpperLetter);
      var x: nat :| i <= x < |s| && ClassAt(s, i, x, IsSpecial);
      assert IsDigit(s[d]) && IsLowerLetter(s[l]) && IsUpperLetter(s[u]) && IsSpecial(s[x]);
    }
    if && (exists j | 0 <= j < |s| :: IsDigit(s[j]))
       && (exists j | 0 <= j < |s| :: IsLowerLetter(s[j]))
       && (exists j | 0 <= j < |s| :: IsUpperLetter(s[j]))
       && (exists j | 0 <= j < |s| :: IsSpecial(s[j]))
    {
      var d :| 0 <= d < |s| && IsDigit(s[d]);
      var l :| 0 <= l < |s| && IsLowerLetter(s[l]);
      var u :| 0 <= u < |s| && IsUpperLetter(s[u]);
      var x :| 0 <= x < |s| && IsSpecial(s[x]);
      assert ClassAt(s, 0, d, IsDigit) && ClassAt(s, 0, l, IsLowerLetter);
      assert ClassAt(s, 0, u, IsUpperLetter) && ClassAt(s, 0, x, IsSpecial);
      assert AllAhead(s, 0);
    }
  }

  /** A concrete reading of the e-mail check: "a@b.c" passes, "a@b" and "@b.c" do not. */
  lemma EmailExamples()
    ensures EmailLike("a@b.c")
    ensures !EmailLike("a@b")
    ensures !EmailLike("@b.c")
  {
    var s := "a@b.c";
    assert NoSpaceBetween(s, 2, 3);
    assert AddressAt(s, 1, 3);
  }

  /** `handleChange` as written: both `setErrors` calls start from the same stale
      `errors`, and the later call replaces the earlier one. */
  function ErrorsAfterChangeAsWritten(errors: map<Field, string>, name: Field): map<Field, string>
  {
    var first := if name in errors then errors - {name} else errors;
    if name == Password && ConfirmPassword in errors then errors - {ConfirmPassword} else first
  }

  /** The intended clearing: the edited field's error goes, and editing the password
      also clears the confirmation error. */
  function ErrorsAfterChange(errors: map<Field, string>, name: Field): (r: map<Field, string>)
    ensures forall f :: f in r <==> f in errors && f != name && !(name == Password && f == ConfirmPassword)
    ensures forall f :: f in r ==> r[f] == errors[f]
  {
    if name == Password then errors - {name, ConfirmPassword} else errors - {name}
  }

  /** `handleChange`: the field takes the typed value and its error is cleared. */
  function HandleChange(state: PageState, name: Field, value: string): (r: PageState)
    ensures Value(r.form, name) == value
    ensures forall g :: g != name ==> Value(r.form, g) == Value(state.form, g)
    ensures name !in r.errors
    ensures name == Password ==> ConfirmPassword !in r.errors
    ensures r.errors.Keys <= state.errors.Keys
  {
    PageState(SetField(state.form, name, value), ErrorsAfterChange(state.errors, name))
  }

  /** As written, editing the password while both password errors are shown leaves
      the password error on screen, which the intended clearing removes. */
  lemma PasswordErrorSurvivesAsWritten(a: string, b: string)
    ensures var errors := map[Password := a, ConfirmPassword := b];
            && Password in ErrorsAfterChangeAsWritten(errors, Password)
            && Password !in ErrorsAfterChange(errors, Password)
  {
    var errors := map[Password := a, ConfirmPassword := b];
    assert ConfirmPassword in errors;
    assert Password in errors - {ConfirmPassword};
  }

  /** Outside that case the code as written and the intended clearing agree. */
  lemma AsWrittenAgreesOtherwise(errors: map<Field, string>, name: Field)
    requires !(name == Password && Password in errors && ConfirmPassword in errors)
    ensures ErrorsAfterChangeAsWritten(errors, name) == ErrorsAfterChange(errors, name)
  {
  }
}
