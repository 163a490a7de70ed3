/** `SignUpForm`: field bounds, the password match, and `save`, which makes
    the email the username. Email syntax and password strength are decided
    by validators configured outside this code; they are parameters here. */
module UserForms {
  import opened Wrappers
  import opened Text
  import opened Models
  import opened Fields

  const NameMinLength: int := 2
  const NameMaxLength: int := 150
  const EmailMaxLength: int := 254
  const PasswordMaxLength: int := 50

  datatype SignUpInput = SignUpInput(firstName: string, lastName: string, email: string,
                                     password1: string, password2: string)

  datatype Field = FirstName | LastName | Email | Password1 | Password2

  /** A required `CharField` with the given bounds accepts the value. */
  predicate CharFieldOk(raw: string, minLength: int, maxLength: int) {
    CharFieldErrors(raw, minLength, maxLength) == {}
  }

  /** Whether `field` of the submission passes its checks. `password2`
      also carries the mismatch and the password validators' verdict. */
  predicate FieldOk(input: SignUpInput, field: Field, emailValid: string -> bool,
                    passwordAccepted: string -> bool)
  {
    match field
    case FirstName => CharFieldOk(input.firstName, NameMinLength, NameMaxLength)
    case LastName => CharFieldOk(input.lastName, NameMinLength, NameMaxLength)
    case Email => CharFieldOk(input.email, 1, EmailMaxLength) && emailValid(Strip(input.email))
    case Password1 => CharFieldOk(input.password1, 1, PasswordMaxLength)
    case Password2 =>
      && CharFieldOk(input.password2, 1, PasswordMaxLength)
      && !(CharFieldOk(input.password1, 1, PasswordMaxLength) && Strip(input.password1) != Strip(input.password2))
      && passwordAccepted(Strip(input.password2))
  }

  /** The fields the form reports errors on. */
  function SignUpErrors(input: SignUpInput, emailValid: string -> bool,
                        passwordAccepted: string -> bool): (errs: set<Field>)
    ensures FirstName in errs <==>
      !(NameMinLength <= |Strip(input.firstName)| <= NameMaxLength) || HasNull(Strip(input.firstName))
    ensures LastName in errs <==>
      !(NameMinLength <= |Strip(input.lastName)| <= NameMaxLength) || HasNull(Strip(input.lastName))
    ensures Email in errs <==>
      || Strip(input.email) == [] || |Strip(input.email)| > EmailMaxLength
      || HasNull(Strip(input.email)) || !emailValid(Strip(input.email))
    ensures Password1 in errs <==>
      !(1 <= |Strip(input.password1)| <= PasswordMaxLength) || HasNull(Strip(input.password1))
    ensures Password2 in errs <==>
      || !(1 <= |Strip(input.password2)| <= PasswordMaxLength) || HasNull(Strip(input.password2))
      || (Password1 !in errs && Strip(input.password1) != Strip(input.password2))
      || !passwordAccepted(Strip(input.password2))
  {
    set f: Field | f in {FirstName, LastName, Email, Password1, Password2}
                   && !FieldOk(input, f, emailValid, passwordAccepted)
  }

  /** The cleaned values of a valid form. */
  datatype SignUpData = SignUpData(firstName: string, lastName: string, email: string, password: string)

  function CleanSignUp(input: SignUpInput, emailValid: string -> bool,
                       passwordAccepted: string -> bool): (r: Result<SignUpData, set<Field>>)
    ensures r.Failure? <==> SignUpErrors(input, emailValid, passwordAccepted) != {}
    ensures r.Success? ==> r.value == SignUpData(Strip(input.firstName), Strip(input.lastName),
                                                 Strip(input.email), Strip(input.password1))
    ensures r.Success? ==>
      && NameMinLength <= |r.value.firstName| <= NameMaxLength
      && NameMinLength <= |r.value.lastName| <= NameMaxLength
      && 1 <= |r.value.email| <= EmailMaxLength
      && 1 <= |r.value.password| <= PasswordMaxLength
      && r.value.password == Strip(input.password1) == Strip(input.password2)
  {
    var errs := SignUpErrors(input, emailValid, passwordAccepted);
    if errs != {} then Failure(errs)
    else
      assert Password1 !in errs && Password2 !in errs;
      Success(SignUpData(Strip(input.firstName), Strip(input.lastName), Strip(input.email),
                         Strip(input.password1)))
  }

  datatype SaveError = UsernameTaken

  /** `BaseUserManager.normalize_email`, which `AbstractUser.clean` applies
      while the form validates: the address is stripped and split at its
      last `@`, and the domain part is lowercased. An address without `@`
      is left as it is. */
  function NormalizeEmail(email: string): (r: string)
    ensures LastIndexOf(Strip(email), '@').None? ==> r == email
    ensures LastIndexOf(Strip(email), '@').Some? ==>
      var e, k := Strip(email), LastIndexOf(Strip(email), '@').value;
      && |r| == |e|
      && r[..k + 1] == e[..k + 1]
      && (forall i :: k < i < |r| ==> r[i] == LowerChar(e[i]) && !IsUpper(r[i]))
  {
    var e := Strip(email);
    match LastIndexOf(e, '@')
    case None => email
    case Some(k) => e[..k + 1] + Lower(e[k + 1..])
  }

  /** Two unpadded addresses with the same local part whose domains differ
      only in letter case normalize to the same address. */
  lemma DomainCaseIgnored(local: string, d1: string, d2: string)
    requires '@' !in d1 && '@' !in d2
    requires Lower(d1) == Lower(d2)
    requires Unpadded(local + "@" + d1) && Unpadded(local + "@" + d2)
    ensures NormalizeEmail(local + "@" + d1) == NormalizeEmail(local + "@" + d2)
    ensures NormalizeEmail(local + "@" + d1) == local + "@" + Lower(d1)
  {
    NormalizesTo(local, d1);
    NormalizesTo(local, d2);
  }

  lemma NormalizesTo(local: string, d: string)
    requires '@' !in d && Unpadded(local + "@" + d)
    ensures NormalizeEmail(local + "@" + d) == local + "@" + Lower(d)
  {
    var e := local + "@" + d;
    StripUnpadded(e);
    var k := LastIndexOf(e, '@').value;
    assert e[|local|] == '@';
    assert k == |local|;
    assert e[..k + 1] == local + "@";
    assert e[k + 1..] == d;
  }

  /** `SignUpForm.save(commit)`: the new user's username is its normalized
      email. With `commit` the user is inserted under the next key (the
      unique username column refuses a taken address); without it nothing
      is stored. The password hash is not modelled. */
  function SaveSignUp(data: SignUpData, commit: bool, s: Store): (r: Result<(User, Store), SaveError>)
    ensures r.Success? ==>
      r.value.0.username == NormalizeEmail(data.email) && r.value.0.email == NormalizeEmail(data.email)
    ensures r.Success? ==> r.value.0.firstName == data.firstName && r.value.0.lastName == data.lastName
    ensures r.Success? ==> !r.value.0.isConfirmed
    ensures !commit ==> r.Success? && r.value.1 == s
    ensures commit && r.Success? ==>
      r.value.1 == s.(users := s.users[s.nextUserId := r.value.0], nextUserId := s.nextUserId + 1)
    ensures commit ==>
      (r.Failure? <==> exists id :: id in s.users && s.users[id].username == NormalizeEmail(data.email))
  {
    var email := NormalizeEmail(data.email);
    var user := User(email, email, data.firstName, data.lastName, false);
    if !commit then Success((user, s))
    else if exists id :: id in s.users && s.users[id].username == email then Failure(UsernameTaken)
    else Success((user, s.(users := s.users[s.nextUserId := user], nextUserId := s.nextUserId + 1)))
  }

  /** Once a sign-up is saved, any later sign-up whose address normalizes
      to the same one (the same address, or one whose domain differs only
      in letter case) is refused: the first took the username. */
  lemma SecondSignUpRefused(first: SignUpData, second: SignUpData, s: Store)
    requires SaveSignUp(first, true, s).Success?
    requires NormalizeEmail(second.email) == NormalizeEmail(first.email)
    ensures SaveSignUp(second, true, SaveSignUp(first, true, s).value.1) == Failure(UsernameTaken)
  {
    var s' := SaveSignUp(first, true, s).value.1;
    assert s'.users[s.nextUserId].username == NormalizeEmail(second.email);
  }

  /** The saved user's username is the submitted email, stripped and with
      its domain lowercased. */
  lemma SignUpUsernameIsEmail(input: SignUpInput, emailValid: string -> bool,
                              passwordAccepted: string -> bool, commit: bool, s: Store)
    requires CleanSignUp(input, emailValid, passwordAccepted).Success?
    ensures var saved := SaveSignUp(CleanSignUp(input, emailValid, passwordAccepted).value, commit, s);
      saved.Success? ==> saved.value.0.username == NormalizeEmail(Strip(input.email))
  {
  }

  // The rows of the form's test table, stated for every input of their
  // shape: a one-letter first name ("J") or last name ("D") and a password
  // mismatch ("super718"/"super719") are refused whatever the validators
  // say; a well-formed row (no surrounding whitespace, no null character)
  // is accepted when they accept its email and password.

  lemma ShortFirstNameRefused(input: SignUpInput, emailValid: string -> bool,
                              passwordAccepted: string -> bool)
    requires |input.firstName| < NameMinLength
    ensures FirstName in SignUpErrors(input, emailValid, passwordAccepted)
  {
  }

  lemma ShortLastNameRefused(input: SignUpInput, emailValid: string -> bool,
                             passwordAccepted: string -> bool)
    requires |input.lastName| < NameMinLength
    ensures LastName in SignUpErrors(input, emailValid, passwordAccepted)
  {
  }

  lemma PasswordMismatchRefused(input: SignUpInput, emailValid: string -> bool,
                                passwordAccepted: string -> bool)
    requires Unpadded(input.password1) && Unpadded(input.password2)
    requires 1 <= |input.password1| <= PasswordMaxLength && !HasNull(input.password1)
    requires input.password1 != input.password2
    ensures Password2 in SignUpErrors(input, emailValid, passwordAccepted)
  {
    StripUnpadded(input.password1);
    StripUnpadded(input.password2);
  }

  lemma WellFormedSignUpAccepted(input: SignUpInput, emailValid: string -> bool,
                                 passwordAccepted: string -> bool)
    requires Unpadded(input.firstName) && Unpadded(input.lastName)
    requires Unpadded(input.email) && Unpadded(input.password1)
    requires !HasNull(input.firstName) && !HasNull(input.lastName)
    requires !HasNull(input.email) && !HasNull(input.password1)
    requires NameMinLength <= |input.firstName| <= NameMaxLength
    requires NameMinLength <= |input.lastName| <= NameMaxLength
    requires 1 <= |input.email| <= EmailMaxLength && emailValid(input.email)
    requires 1 <= |input.password1| <= PasswordMaxLength
    requires input.password2 == input.password1 && passwordAccepted(input.password1)
    ensures SignUpErrors(input, emailValid, passwordAccepted) == {}
  {
    NameAccepted(input.firstName);
    NameAccepted(input.lastName);
    StripUnpadded(input.email);
    PasswordAccepted(input, emailValid, passwordAccepted);
    NoFieldMeansNoError(SignUpErrors(input, emailValid, passwordAccepted));
  }

  lemma NameAccepted(name: string)
    requires Unpadded(name) && !HasNull(name) && NameMinLength <= |name| <= NameMaxLength
    ensures CharFieldOk(name, NameMinLength, NameMaxLength)
  {
    StripUnpadded(name);
  }

  lemma PasswordAccepted(input: SignUpInput, emailValid: string -> bool, passwordAccepted: string -> bool)
    requires Unpadded(input.password1) && !HasNull(input.password1)
    requires 1 <= |input.password1| <= PasswordMaxLength
    requires input.password2 == input.password1 && passwordAccepted(input.password1)
    ensures Password1 !in SignUpErrors(input, emailValid, passwordAccepted)
    ensures Password2 !in SignUpErrors(input, emailValid, passwordAccepted)
  {
    StripUnpadded(input.password1);
  }

  lemma NoFieldMeansNoError(errs: set<Field>)
    requires FirstName !in errs && LastName !in errs && Email !in errs
    requires Password1 !in errs && Password2 !in errs
    ensures errs == {}
  {
    forall f | f in errs
      ensures false
    {
      match f
      case FirstName =>
      case LastName =>
      case Email =>
      case Password1 =>
      case Password2 =>
    }
  }
}
