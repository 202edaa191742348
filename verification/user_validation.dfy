/**
 * The rule lists that guard registration, login and profile update. The
 * email test and the email normaliser belong to the validator library and
 * are parameters. A field is `None` when absent; an absent field reads as
 * the empty string unless the rule is optional, in which case it is not
 * checked. Every failing rule adds an error, in rule order.
 */
module UserValidation {
  import opened Wrappers
  import opened Text

  datatype Field = NameField | EmailField | PasswordField | RoleField

  datatype FieldError = FieldError(field: Field, message: string)

  /** The request body's string fields. */
  datatype Body = Body(name: Option<string>, email: Option<string>, password: Option<string>, role: Option<string>)

  /** The string a rule sees: an absent field reads as empty. */
  function Read(v: Option<string>): string {
    v.GetOr("")
  }

  /** Whether `c` is a variation selector, which the library's `isLength` does not count. */
  predicate IsVariationSelector(c: char) {
    c == '\U{FE0E}' || c == '\U{FE0F}'
  }

  /** `isLength`: characters (code points) other than variation selectors. */
  function CountedLength(s: string): (n: nat)
    ensures n <= |s|
    ensures (forall i :: 0 <= i < |s| ==> !IsVariationSelector(s[i])) ==> n == |s|
  {
    if s == [] then 0
    else CountedLength(s[..|s| - 1]) + (if IsVariationSelector(s[|s| - 1]) then 0 else 1)
  }

  /** `[a-zA-Z0-9\s_-]`. */
  predicate IsNameChar(c: char) {
    IsAlphanumeric(c) || IsSpace(c) || c == '_' || c == '-'
  }

  /** `^[a-zA-Z0-9\s_-]+$`. */
  predicate NameCharsOnly(s: string) {
    s != [] && forall i :: 0 <= i < |s| ==> IsNameChar(s[i])
  }

  /** The text before the first line terminator: what `.` can range over from the start. */
  function FirstLine(s: string): (line: string)
    ensures line <= s
    ensures forall i :: 0 <= i < |line| ==> !IsLineTerminator(line[i])
  {
    s[..FirstIndex(s, IsLineTerminator)]
  }

  /** `^(?=.*[a-z])(?=.*\d)`: a lowercase letter and a digit, both before any line break. */
  predicate LowerAndDigitUpFront(s: string) {
    var line := FirstLine(s);
    (exists i :: 0 <= i < |line| && IsLower(line[i])) && (exists i :: 0 <= i < |line| && IsDigit(line[i]))
  }

  const RoleNames: set<string> := {"user", "admin"}

  const NameRequired := "Name is required"
  const NameLength := "Name must be between 2 and 50 characters"
  const NameChars := "Name can only contain letters, numbers, spaces, underscores, and hyphens"
  const EmailInvalid := "Please provide a valid email"
  const EmailTooLong := "Email must be less than 100 characters"
  const PasswordLength := "Password must be between 6 and 128 characters long"
  const PasswordMix := "Password must contain at least one lowercase letter and one number"
  const PasswordRequired := "Password is required"
  const RoleInvalid := "Role must be either user or admin"

  /** One rule: its error when `ok` fails. */
  function Check(ok: bool, field: Field, message: string): (errs: seq<FieldError>)
    ensures errs == [] <==> ok
  {
    if ok then [] else [FieldError(field, message)]
  }

  predicate NameLengthOk(t: string) {
    2 <= CountedLength(t) <= 50
  }

  predicate PasswordLengthOk(p: string) {
    6 <= CountedLength(p) <= 128
  }

  /** The role rule: an absent role passes, a present one must name a known role. */
  function RoleErrors(role: Option<string>): (errs: seq<FieldError>)
    ensures errs == [] <==> role.None? || role.value == "user" || role.value == "admin"
    ensures forall e :: e in errs ==> e.field == RoleField && e.message == RoleInvalid
  {
    if role.None? then [] else Check(role.value in RoleNames, RoleField, RoleInvalid)
  }

  /** What registration accepts, with `isEmail` and `normalizeEmail` as given. */
  predicate RegistrationAcceptable(b: Body, isEmail: string -> bool, normalize: string -> string) {
    var name := Trim(Read(b.name));
    && NameLengthOk(name) && NameCharsOnly(name)
    && isEmail(Read(b.email)) && CountedLength(normalize(Read(b.email))) <= 100
    && PasswordLengthOk(Read(b.password)) && LowerAndDigitUpFront(Read(b.password))
    && (b.role.None? || b.role.value in RoleNames)
  }

  /** The name rules, on the trimmed name: every failing rule adds its error. */
  function NameErrors(name: string): (errs: seq<FieldError>)
    ensures errs == [] <==> NameLengthOk(name) && NameCharsOnly(name)
  {
    Check(name != "", NameField, NameRequired)
    + Check(NameLengthOk(name), NameField, NameLength)
    + Check(NameCharsOnly(name), NameField, NameChars)
  }

  function EmailErrors(email: string, isEmail: string -> bool, normalize: string -> string): (errs: seq<FieldError>)
    ensures errs == [] <==> isEmail(email) && CountedLength(normalize(email)) <= 100
  {
    Check(isEmail(email), EmailField, EmailInvalid)
    + Check(CountedLength(normalize(email)) <= 100, EmailField, EmailTooLong)
  }

  function PasswordErrors(password: string): (errs: seq<FieldError>)
    ensures errs == [] <==> PasswordLengthOk(password) && LowerAndDigitUpFront(password)
  {
    Check(PasswordLengthOk(password), PasswordField, PasswordLength)
    + Check(LowerAndDigitUpFront(password), PasswordField, PasswordMix)
  }

  /** `validateUserRegistration`. */
  function ValidateRegistration(b: Body, isEmail: string -> bool, normalize: string -> string): (errs: seq<FieldError>)
    ensures errs == [] <==> RegistrationAcceptable(b, isEmail, normalize)
  {
    NameErrors(Trim(Read(b.name)))
    + EmailErrors(Read(b.email), isEmail, normalize)
    + PasswordErrors(Read(b.password))
    + RoleErrors(b.role)
  }

  /** A name of nothing but whitespace is missing: it is trimmed before it is checked, and all three name errors lead the list. */
  lemma BlankNameIsMissing(b: Body, isEmail: string -> bool, normalize: string -> string)
    requires b.name.Some? && forall i :: 0 <= i < |b.name.value| ==> IsSpace(b.name.value[i])
    ensures |ValidateRegistration(b, isEmail, normalize)| >= 3
    ensures ValidateRegistration(b, isEmail, normalize)[0] == FieldError(NameField, NameRequired)
    ensures ValidateRegistration(b, isEmail, normalize)[1] == FieldError(NameField, NameLength)
    ensures ValidateRegistration(b, isEmail, normalize)[2] == FieldError(NameField, NameChars)
  {
    TrimBlank(b.name.value);
    assert Trim(Read(b.name)) == [];
    assert NameErrors([]) == [FieldError(NameField, NameRequired), FieldError(NameField, NameLength), FieldError(NameField, NameChars)];
  }

  /** A digit after a line break does not count towards the password rule. */
  lemma LineBreakHidesDigit()
    ensures !LowerAndDigitUpFront("abcdef\n1")
  {
    var s := "abcdef\n1";
    FirstIndexIs(s, IsLineTerminator, 6);
    var line := FirstLine(s);
    assert line == s[..6];
    assert forall i :: 0 <= i < |line| ==> !IsDigit(line[i]);
  }

  /** The same letters and digit on one line do satisfy it. */
  lemma DigitOnFirstLineCounts()
    ensures LowerAndDigitUpFront("abcde1")
  {
    var t := "abcde1";
    assert forall i :: 0 <= i < |t| ==> !IsLineTerminator(t[i]);
    FirstIndexIs(t, IsLineTerminator, 6);
    assert FirstLine(t) == t;
    assert IsLower(t[0]) && IsDigit(t[5]);
  }

  /** What login accepts: a valid email and any non-empty password. */
  predicate LoginAcceptable(b: Body, isEmail: string -> bool) {
    isEmail(Read(b.email)) && Read(b.password) != ""
  }

  /** `validateUserLogin`: no length or strength rule for the password. */
  function ValidateLogin(b: Body, isEmail: string -> bool): (errs: seq<FieldError>)
    ensures errs == [] <==> LoginAcceptable(b, isEmail)
  {
    Check(isEmail(Read(b.email)), EmailField, EmailInvalid)
    + Check(Read(b.password) != "", PasswordField, PasswordRequired)
  }

  /** Every password registration accepts, login accepts too. */
  lemma RegistrationPasswordsLogIn(b: Body, isEmail: string -> bool, normalize: string -> string)
    requires RegistrationAcceptable(b, isEmail, normalize)
    ensures LoginAcceptable(b, isEmail)
  {
  }

  /** What update accepts: every field optional; a given name needs only its trimmed length. */
  predicate UpdateAcceptable(b: Body, isEmail: string -> bool) {
    && (b.name.None? || NameLengthOk(Trim(b.name.value)))
    && (b.email.None? || isEmail(b.email.value))
    && (b.role.None? || b.role.value in RoleNames)
  }

  /** `validateUserUpdate`. */
  function ValidateUpdate(b: Body, isEmail: string -> bool): (errs: seq<FieldError>)
    ensures errs == [] <==> UpdateAcceptable(b, isEmail)
  {
    (if b.name.None? then [] else Check(NameLengthOk(Trim(b.name.value)), NameField, NameLength))
    + (if b.email.None? then [] else Check(isEmail(b.email.value), EmailField, EmailInvalid))
    + RoleErrors(b.role)
  }

  /** An empty update passes; and update is no stricter than registration on the fields they share. */
  lemma UpdateIsLenient(b: Body, isEmail: string -> bool, normalize: string -> string)
    ensures ValidateUpdate(Body(None, None, None, None), isEmail) == []
    ensures RegistrationAcceptable(b, isEmail, normalize) ==> UpdateAcceptable(b, isEmail)
  {
  }

  /** Without white space or variation selectors, the trimmed name counts one per character. */
  lemma PlainNameLength(name: string)
    requires !HasSpace(name)
    requires forall i :: 0 <= i < |name| ==> !IsVariationSelector(name[i])
    ensures CountedLength(Trim(name)) == |name|
  {
    TrimKeepsNonSpace(name);
    assert CountedLength(name) == |name|;
  }

  /** A name with no white space and no variation selector passes update on its length alone. */
  lemma UpdateCountsPlainNames(name: string, isEmail: string -> bool)
    requires !HasSpace(name)
    requires forall i :: 0 <= i < |name| ==> !IsVariationSelector(name[i])
    requires 2 <= |name| <= 50
    ensures ValidateUpdate(Body(Some(name), None, None, None), isEmail) == []
  {
    PlainNameLength(name);
  }

  /** Update accepts names registration refuses: the character rule is not applied. */
  lemma UpdateSkipsNameCharacters(name: string, isEmail: string -> bool)
    requires !HasSpace(name)
    requires forall i :: 0 <= i < |name| ==> !IsVariationSelector(name[i])
    requires 2 <= |name| <= 50
    requires exists i :: 0 <= i < |name| && !IsNameChar(name[i])
    ensures ValidateUpdate(Body(Some(name), None, None, None), isEmail) == []
    ensures !NameCharsOnly(Trim(name))
  {
    UpdateCountsPlainNames(name, isEmail);
    TrimKeepsNonSpace(name);
  }
}
