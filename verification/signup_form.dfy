/**
 * `PreSignupForm`: the per-field cleaning (strip, required, maximum length),
 * the `clean_email` / `clean_username` hooks and the form-wide `clean`
 * that compares the two passwords and only then consults the password policy.
 */
module SignupForm {
  import opened Wrappers
  import opened Text
  import opened Accounts

  const UsernameMax: nat := 150
  const FirstNameMax: nat := 50
  const LastNameMax: nat := 100
  const EmailMax: nat := 100
  const PhoneMax: nat := 20

  /** The only e-mail domain the signup accepts. */
  const AllowedSuffix: string := "@upr.edu"

  datatype Field = Username | FirstName | LastName | Email | PhoneNumber | Password | ConfirmPassword
                 | NonField

  datatype FormError = Required | TooLong(limit: nat) | NullCharacter | WrongDomain | EmailTaken | UsernameTaken
                     | PasswordMismatch | PasswordPolicy

  /** The character `ProhibitNullCharactersValidator` refuses in every text field. */
  const Nul: char := '\0'

  datatype Issue = Issue(field: Field, error: FormError)

  datatype Cleaned<T> = Accept(value: T) | Reject(error: FormError)

  /** The submitted values; an absent text value is the empty string, an unticked box is false. */
  datatype SignupInput = SignupInput(
    username: string, firstName: string, lastName: string, email: string, phoneNumber: string,
    isSeller: bool, providesService: bool, password: string, confirmPassword: string)

  /** What a valid form hands to the signup view. */
  datatype SignupData = SignupData(
    username: string, firstName: string, lastName: string, email: string, phoneNumber: string,
    isSeller: bool, providesService: bool, password: string)

  datatype FormResult = Valid(data: SignupData) | Invalid(errors: set<Issue>)

  /**
   * A text field's own cleaning: the value is stripped, an empty value is an error only for a
   * required field, and a non-empty value longer than the field's maximum, or holding a NUL
   * character, is rejected (the length check is reported first).
   */
  function CleanText(raw: string, maxLength: Option<nat>, required: bool): (r: Cleaned<string>)
    ensures r.Accept? <==> && (required ==> Strip(raw) != [])
                           && (maxLength.Some? ==> |Strip(raw)| <= maxLength.value)
                           && !Contains(Strip(raw), Nul)
    ensures r.Accept? ==> r.value == Strip(raw)
    ensures r.Reject? && Strip(raw) == [] ==> r.error == Required
    ensures maxLength.Some? && |Strip(raw)| > maxLength.value ==> r == Reject(TooLong(maxLength.value))
    ensures Strip(raw) != [] && (maxLength.Some? ==> |Strip(raw)| <= maxLength.value) && Contains(Strip(raw), Nul)
            ==> r == Reject(NullCharacter)
  {
    var v := Strip(raw);
    if v == [] then (if required then Reject(Required) else Accept(v))
    else if maxLength.Some? && |v| > maxLength.value then Reject(TooLong(maxLength.value))
    else if Contains(v, Nul) then Reject(NullCharacter)
    else Accept(v)
  }

  /** Whether a user already holds this e-mail (exact match). */
  predicate EmailRegistered(users: seq<User>, email: string) {
    exists u :: u in users && u.email == email
  }

  /** Whether a user already holds this username (exact match). */
  predicate UsernameTakenBy(users: seq<User>, username: string) {
    exists u :: u in users && u.username == username
  }

  /** `clean_email`: normalise, then insist on the university domain, then on novelty. */
  function CleanEmail(value: string, users: seq<User>): (r: Cleaned<string>)
    ensures r.Accept? <==> EndsWith(Lower(Strip(value)), AllowedSuffix) && !EmailRegistered(users, Lower(Strip(value)))
    ensures r.Accept? ==> r.value == Lower(Strip(value))
    ensures r.Reject? ==> r.error == (if EndsWith(Lower(Strip(value)), AllowedSuffix) then EmailTaken else WrongDomain)
  {
    var e := Lower(Strip(value));
    if !EndsWith(e, AllowedSuffix) then Reject(WrongDomain)
    else if EmailRegistered(users, e) then Reject(EmailTaken)
    else Accept(e)
  }

  /** `clean_username`: normalise, then reject a name already taken. */
  function CleanUsername(value: string, users: seq<User>): (r: Cleaned<string>)
    ensures r.Accept? <==> !UsernameTakenBy(users, Lower(Strip(value)))
    ensures r.Accept? ==> r.value == Lower(Strip(value))
  {
    var u := Lower(Strip(value));
    if UsernameTakenBy(users, u) then Reject(UsernameTaken) else Accept(u)
  }

  /** The `username` field: its own cleaning, then `clean_username` if that accepted. */
  function UsernameField(raw: string, users: seq<User>): (r: Cleaned<string>)
    ensures r.Accept? <==> Strip(raw) != [] && |Strip(raw)| <= UsernameMax && !Contains(Strip(raw), Nul)
                           && !UsernameTakenBy(users, Lower(Strip(raw)))
    ensures r.Accept? ==> r.value == Lower(Strip(raw))
  {
    var c := CleanText(raw, Some(UsernameMax), true);
    StripIdempotent(raw);
    if c.Accept? then CleanUsername(c.value, users) else c
  }

  /** The `email` field: its own cleaning, then `clean_email` if that accepted. */
  function EmailField(raw: string, users: seq<User>): (r: Cleaned<string>)
    ensures r.Accept? <==> Strip(raw) != [] && |Strip(raw)| <= EmailMax && !Contains(Strip(raw), Nul)
                           && EndsWith(Lower(Strip(raw)), AllowedSuffix) && !EmailRegistered(users, Lower(Strip(raw)))
    ensures r.Accept? ==> r.value == Lower(Strip(raw))
    ensures (Strip(raw) != [] && |Strip(raw)| <= EmailMax && !Contains(Strip(raw), Nul)
             && !EndsWith(Lower(Strip(raw)), AllowedSuffix)) ==> r == Reject(WrongDomain)
  {
    var c := CleanText(raw, Some(EmailMax), true);
    StripIdempotent(raw);
    if c.Accept? then CleanEmail(c.value, users) else c
  }

  /**
   * `clean`: a mismatch between the two cleaned passwords is reported on `confirm_password`;
   * only when they agree is the password policy consulted, its complaint being a form-wide error.
   */
  function PasswordIssues(password: Cleaned<string>, confirm: Cleaned<string>, policyAccepts: bool): (issues: set<Issue>)
    ensures Get(password) != Get(confirm) ==> issues == {Issue(ConfirmPassword, PasswordMismatch)}
    ensures Get(password) == Get(confirm) ==> issues == (if policyAccepts then {} else {Issue(NonField, PasswordPolicy)})
  {
    if Get(password) != Get(confirm) then {Issue(ConfirmPassword, PasswordMismatch)}
    else if !policyAccepts then {Issue(NonField, PasswordPolicy)}
    else {}
  }

  function IssueOf(field: Field, c: Cleaned<string>): (issues: set<Issue>)
    ensures issues == {} <==> c.Accept?
    ensures c.Reject? ==> Issue(field, c.error) in issues
    ensures forall i :: i in issues ==> c.Reject? && i == Issue(field, c.error)
  {
    if c.Reject? then {Issue(field, c.error)} else {}
  }

  /** `cleaned_data.get(name)`: present only for a field that passed. */
  function Get(c: Cleaned<string>): Option<string> {
    if c.Accept? then Some(c.value) else None
  }

  /** The seven text fields after their own cleaning and the `clean_<field>` hooks. */
  datatype CleanedFields = CleanedFields(
    username: Cleaned<string>, firstName: Cleaned<string>, lastName: Cleaned<string>,
    email: Cleaned<string>, phoneNumber: Cleaned<string>, password: Cleaned<string>,
    confirmPassword: Cleaned<string>)

  function CleanFields(input: SignupInput, users: seq<User>): CleanedFields {
    CleanedFields(
      UsernameField(input.username, users),
      CleanText(input.firstName, Some(FirstNameMax), true),
      CleanText(input.lastName, Some(LastNameMax), true),
      EmailField(input.email, users),
      CleanText(input.phoneNumber, Some(PhoneMax), false),
      CleanText(input.password, None, true),
      CleanText(input.confirmPassword, None, true))
  }

  predicate AllAccepted(f: CleanedFields) {
    f.username.Accept? && f.firstName.Accept? && f.lastName.Accept? && f.email.Accept?
    && f.phoneNumber.Accept? && f.password.Accept? && f.confirmPassword.Accept?
  }

  /** Every field error, then the form-wide password errors. */
  function FieldIssues(f: CleanedFields): (issues: set<Issue>)
    ensures issues == {} <==> AllAccepted(f)
    ensures forall i :: i in issues ==> i.field != NonField
  {
    IssueOf(Username, f.username) + IssueOf(FirstName, f.firstName) + IssueOf(LastName, f.lastName)
    + IssueOf(Email, f.email) + IssueOf(PhoneNumber, f.phoneNumber) + IssueOf(Password, f.password)
    + IssueOf(ConfirmPassword, f.confirmPassword)
  }

  /**
   * `is_valid()` once the fields are cleaned: the form is valid when no field reported an error
   * and `clean` added none; otherwise every error is reported together.
   */
  function Decide(f: CleanedFields, isSeller: bool, providesService: bool, policyAccepts: bool): (r: FormResult)
    ensures r.Valid? <==> AllAccepted(f) && Get(f.password) == Get(f.confirmPassword) && policyAccepts
    ensures r.Valid? ==> r.data == SignupData(f.username.value, f.firstName.value, f.lastName.value,
                                              f.email.value, f.phoneNumber.value, isSeller, providesService,
                                              f.password.value)
    ensures r.Invalid? ==> r.errors != {}
    ensures f.email.Reject? ==> r.Invalid? && Issue(Email, f.email.error) in r.errors
    ensures Get(f.password) != Get(f.confirmPassword) ==>
              && r.Invalid? && Issue(ConfirmPassword, PasswordMismatch) in r.errors
              && Issue(NonField, PasswordPolicy) !in r.errors
  {
    var errors := FieldIssues(f) + PasswordIssues(f.password, f.confirmPassword, policyAccepts);
    if errors == {} then
      Valid(SignupData(f.username.value, f.firstName.value, f.lastName.value, f.email.value,
                       f.phoneNumber.value, isSeller, providesService, f.password.value))
    else Invalid(errors)
  }

  /** When the passwords disagree the policy's verdict makes no difference to the outcome. */
  lemma DecideIgnoresPolicyOnMismatch(f: CleanedFields, isSeller: bool, providesService: bool)
    requires Get(f.password) != Get(f.confirmPassword)
    ensures Decide(f, isSeller, providesService, true) == Decide(f, isSeller, providesService, false)
  {
  }

  /**
   * The whole form. `policyAccepts` is the verdict of the password-policy validators on the
   * cleaned password; the form asks for it only when the two passwords agree.
   */
  function Validate(input: SignupInput, users: seq<User>, policyAccepts: bool): (r: FormResult)
    ensures r.Invalid? ==> r.errors != {}
  {
    Decide(CleanFields(input, users), input.isSeller, input.providesService, policyAccepts)
  }

  /** A form is valid exactly when every field passes, the passwords agree and the policy accepts. */
  lemma {:induction false} ValidateAccepts(input: SignupInput, users: seq<User>, policyAccepts: bool)
    ensures Validate(input, users, policyAccepts).Valid? <==> Acceptable(input, users, policyAccepts)
  {
    var f := CleanFields(input, users);
    CleanedPasswordsAgree(input.password, input.confirmPassword);
  }

  /** Every accepted signup has fields within their limits, the university domain, and a fresh e-mail and username. */
  lemma {:induction false} ValidateYieldsValidData(input: SignupInput, users: seq<User>, policyAccepts: bool)
    ensures Validate(input, users, policyAccepts).Valid? ==> ValidData(Validate(input, users, policyAccepts).data, users)
    ensures Validate(input, users, policyAccepts).Valid? ==>
              Validate(input, users, policyAccepts).data.email == Lower(Strip(input.email))
              && Validate(input, users, policyAccepts).data.username == Lower(Strip(input.username))
  {
    var f := CleanFields(input, users);
    LowerKeepsNul(Strip(input.username));
    LowerKeepsNul(Strip(input.email));
  }

  /** A non-empty e-mail of acceptable length outside the university domain is rejected on the e-mail field. */
  lemma {:induction false} ValidateRejectsForeignDomain(input: SignupInput, users: seq<User>, policyAccepts: bool)
    requires Strip(input.email) != [] && |Strip(input.email)| <= EmailMax && !Contains(Strip(input.email), Nul)
    requires !EndsWith(Lower(Strip(input.email)), AllowedSuffix)
    ensures Validate(input, users, policyAccepts).Invalid?
    ensures Issue(Email, WrongDomain) in Validate(input, users, policyAccepts).errors
  {
    assert CleanFields(input, users).email == Reject(WrongDomain);
  }

  /**
   * Mismatched passwords, at least one of which passed its own cleaning, put an error on
   * `confirm_password`, and the password policy is then not consulted.
   */
  lemma {:induction false} ValidateMismatchSkipsPolicy(input: SignupInput, users: seq<User>, policyAccepts: bool)
    requires PasswordPasses(input.password) || PasswordPasses(input.confirmPassword)
    requires Strip(input.password) != Strip(input.confirmPassword)
    ensures Validate(input, users, policyAccepts).Invalid?
    ensures Issue(ConfirmPassword, PasswordMismatch) in Validate(input, users, policyAccepts).errors
    ensures Issue(NonField, PasswordPolicy) !in Validate(input, users, policyAccepts).errors
    ensures Validate(input, users, true) == Validate(input, users, false)
  {
    CleanedPasswordsAgree(input.password, input.confirmPassword);
    DecideIgnoresPolicyOnMismatch(CleanFields(input, users), input.isSeller, input.providesService);
  }

  /** The cleaned passwords agree exactly when the stripped raw passwords do. */
  lemma CleanedPasswordsAgree(password: string, confirm: string)
    ensures Strip(password) == Strip(confirm) ==> Get(CleanText(password, None, true)) == Get(CleanText(confirm, None, true))
    ensures PasswordPasses(password) || PasswordPasses(confirm) ==>
              (Get(CleanText(password, None, true)) == Get(CleanText(confirm, None, true)) <==> Strip(password) == Strip(confirm))
  {
  }

  /** A password box whose value survives its own field cleaning. */
  predicate PasswordPasses(raw: string) {
    Strip(raw) != [] && !Contains(Strip(raw), Nul)
  }

  /** Lower-casing never creates or removes a NUL character. */
  lemma LowerKeepsNul(s: string)
    ensures Contains(Lower(s), Nul) <==> Contains(s, Nul)
  {
    if Contains(s, Nul) {
      var k :| 0 <= k < |s| && s[k] == Nul;
      assert Lower(s)[k] == Nul;
    }
  }

  /** The form's acceptance condition, stated field by field on the raw input. */
  predicate Acceptable(input: SignupInput, users: seq<User>, policyAccepts: bool) {
    && Strip(input.username) != [] && |Strip(input.username)| <= UsernameMax
    && !UsernameTakenBy(users, Lower(Strip(input.username)))
    && Strip(input.firstName) != [] && |Strip(input.firstName)| <= FirstNameMax
    && Strip(input.lastName) != [] && |Strip(input.lastName)| <= LastNameMax
    && Strip(input.email) != [] && |Strip(input.email)| <= EmailMax
    && EndsWith(Lower(Strip(input.email)), AllowedSuffix) && !EmailRegistered(users, Lower(Strip(input.email)))
    && |Strip(input.phoneNumber)| <= PhoneMax
    && Strip(input.password) != [] && Strip(input.password) == Strip(input.confirmPassword)
    && !Contains(Strip(input.username), Nul) && !Contains(Strip(input.firstName), Nul)
    && !Contains(Strip(input.lastName), Nul) && !Contains(Strip(input.email), Nul)
    && !Contains(Strip(input.phoneNumber), Nul) && !Contains(Strip(input.password), Nul)
    && policyAccepts
  }

  /** What every accepted signup satisfies, independently of the raw input it came from. */
  predicate ValidData(d: SignupData, users: seq<User>) {
    && 0 < |d.username| <= UsernameMax && 0 < |d.firstName| <= FirstNameMax && 0 < |d.lastName| <= LastNameMax
    && 0 < |d.email| <= EmailMax && |d.phoneNumber| <= PhoneMax
    && EndsWith(d.email, AllowedSuffix) && !EmailRegistered(users, d.email)
    && !UsernameTakenBy(users, d.username)
    && !Contains(d.username, Nul) && !Contains(d.firstName, Nul) && !Contains(d.lastName, Nul)
    && !Contains(d.email, Nul) && !Contains(d.phoneNumber, Nul) && !Contains(d.password, Nul)
  }
}
