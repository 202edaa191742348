/**
 * The client-side forms: sign-up, login, password reset and forgotten
 * password. Lengths are JavaScript string lengths (UTF-16 code units). An
 * error object is a map from field to message; a field without an error
 * has no key.
 */
module Forms {
  import opened Wrappers
  import opened Text
  import UserValidation

  // ----- The email shape `/\S+@\S+\.\S+/` -----

  /** `s[i..j]` is a non-empty run of non-whitespace characters. */
  predicate NonSpaceRun(s: string, i: int, j: int) {
    0 <= i < j <= |s| && forall k :: i <= k < j ==> !IsSpace(s[k])
  }

  /** The pattern matches `s[i..e]` with its `@` at `a` and its `.` at `d`. */
  predicate MatchesAt(s: string, i: int, a: int, d: int, e: int) {
    && 0 <= i < a < d < e <= |s|
    && s[a] == '@' && s[d] == '.'
    && NonSpaceRun(s, i, a) && NonSpaceRun(s, a + 1, d) && NonSpaceRun(s, d + 1, e)
  }

  /** The regular expression's meaning: it matches somewhere in `s` (it is not anchored). */
  ghost predicate EmailPattern(s: string) {
    exists i, a, d, e :: MatchesAt(s, i, a, d, e)
  }

  /**
   * A shortest match: an `@` at `a` with a non-space character before it,
   * a non-empty non-space stretch up to a `.` at `d`, then a non-space
   * character.
   */
  predicate ShapedAt(s: string, a: int, d: int) {
    && 1 <= a && a + 2 <= d && d + 2 <= |s|
    && s[a] == '@' && s[d] == '.'
    && !IsSpace(s[a - 1]) && !IsSpace(s[d + 1]) && NonSpaceRun(s, a + 1, d)
  }

  /** The test the forms run. */
  predicate EmailShaped(s: string) {
    exists a, d :: 0 <= a < |s| && 0 <= d < |s| && ShapedAt(s, a, d)
  }

  lemma ShapedMatches(s: string)
    requires EmailShaped(s)
    ensures EmailPattern(s)
  {
    var a, d :| 0 <= a < |s| && 0 <= d < |s| && ShapedAt(s, a, d);
    assert NonSpaceRun(s, a - 1, a) by {
      forall k | a - 1 <= k < a ensures !IsSpace(s[k]) {
        assert k == a - 1;
      }
    }
    assert NonSpaceRun(s, d + 1, d + 2) by {
      forall k | d + 1 <= k < d + 2 ensures !IsSpace(s[k]) {
        assert k == d + 1;
      }
    }
    assert MatchesAt(s, a - 1, a, d, d + 2);
  }

  lemma MatchIsShaped(s: string, i: int, a: int, d: int, e: int)
    requires MatchesAt(s, i, a, d, e)
    ensures EmailShaped(s)
  {
    assert !IsSpace(s[a - 1]) && !IsSpace(s[d + 1]);
    assert ShapedAt(s, a, d);
  }

  /** The forms' test is exactly the regular expression's meaning. */
  lemma EmailShapedIsThePattern(s: string)
    ensures EmailShaped(s) <==> EmailPattern(s)
  {
    if EmailShaped(s) {
      ShapedMatches(s);
    }
    if EmailPattern(s) {
      var i, a, d, e :| MatchesAt(s, i, a, d, e);
      MatchIsShaped(s, i, a, d, e);
    }
  }

  /** Without an `@`, or without a `.`, nothing is email-shaped. */
  lemma NeedsAtAndDot(s: string)
    requires '@' !in s || '.' !in s
    ensures !EmailShaped(s)
  {
  }

  /** Shapes the forms accept, even with text around them. */
  lemma EmailExamples()
    ensures EmailShaped("a@b.c")
    ensures EmailShaped("x y@b.c z")
    ensures EmailShaped("a@b@c.d")
    ensures !EmailShaped("a@b")
  {
    var s := "a@b.c";
    assert NonSpaceRun(s, 2, 3) by {
      forall k | 2 <= k < 3 ensures !IsSpace(s[k]) {
        assert s[k] == 'b';
      }
    }
    assert ShapedAt(s, 1, 3);
    var t := "x y@b.c z";
    assert NonSpaceRun(t, 4, 5) by {
      forall k | 4 <= k < 5 ensures !IsSpace(t[k]) {
        assert t[k] == 'b';
      }
    }
    assert ShapedAt(t, 3, 5);
    var u := "a@b@c.d";
    assert NonSpaceRun(u, 2, 5) by {
      forall k | 2 <= k < 5 ensures !IsSpace(u[k]) {
        assert u[k] in "b@c";
      }
    }
    assert ShapedAt(u, 1, 5);
    NeedsAtAndDot("a@b");
  }

  // ----- Password strength -----

  predicate HasUpper(s: string) {
    exists i :: 0 <= i < |s| && IsUpper(s[i])
  }

  predicate HasDigit(s: string) {
    exists i :: 0 <= i < |s| && IsDigit(s[i])
  }

  /** `/[^A-Za-z0-9]/`: some character that is not an ASCII letter or digit. */
  predicate HasSymbol(s: string) {
    exists i :: 0 <= i < |s| && !IsAlphanumeric(s[i])
  }

  const StrengthLabels: seq<string> := ["Very Weak", "Weak", "Fair", "Good", "Strong"]

  datatype Strength = Strength(strength: nat, text: string)

  function Tally(b: bool): nat {
    if b then 1 else 0
  }

  /** The five criteria a password earns a point for. */
  function Points(p: string): (n: nat)
    ensures n <= 5
  {
    Tally(Utf16Length(p) >= 6) + Tally(Utf16Length(p) >= 8)
    + Tally(HasUpper(p)) + Tally(HasDigit(p)) + Tally(HasSymbol(p))
  }

  /** `getPasswordStrength`, the same on the sign-up and reset pages. */
  function PasswordStrength(p: string): (r: Strength)
    ensures p == "" ==> r == Strength(0, "")
    ensures p != "" ==> r.strength == Points(p) && r.text == StrengthLabels[Min(r.strength, 4)]
    ensures r.strength <= 5
  {
    if p == "" then Strength(0, "")
    else
      var n := Points(p);
      Strength(n, StrengthLabels[Min(n, 4)])
  }

  /** Typing another character never weakens a password. */
  lemma {:induction false} StrengthGrows(p: string, c: char)
    ensures PasswordStrength(p + [c]).strength >= PasswordStrength(p).strength
  {
    if p != "" {
      var q := p + [c];
      Utf16LengthAppend(p, c);
      if HasUpper(p) {
        var i :| 0 <= i < |p| && IsUpper(p[i]);
        assert q[i] == p[i];
      }
      if HasDigit(p) {
        var i :| 0 <= i < |p| && IsDigit(p[i]);
        assert q[i] == p[i];
      }
      if HasSymbol(p) {
        var i :| 0 <= i < |p| && !IsAlphanumeric(p[i]);
        assert q[i] == p[i];
      }
    }
  }

  /** Full marks take eight units, an upper-case letter, a digit and a symbol; four and five read alike. */
  lemma StrongestPasswords(p: string)
    ensures PasswordStrength(p).strength == 5 <==>
      Utf16Length(p) >= 8 && HasUpper(p) && HasDigit(p) && HasSymbol(p)
    ensures PasswordStrength(p).strength >= 4 ==> PasswordStrength(p).text == "Strong"
  {
    if Utf16Length(p) >= 8 {
      assert p != "";
    }
  }

  /** A password of six lower-case letters rates "Weak". */
  lemma SixLettersAreWeak()
    ensures PasswordStrength("abcdef") == Strength(1, "Weak")
  {
    var p := "abcdef";
    assert Utf16Length(p) == 6;
    assert !HasUpper(p) && !HasDigit(p) && !HasSymbol(p);
  }

  // ----- The page forms -----

  datatype FormField = Name | Email | Password | ConfirmPassword | General

  /** A form's contents; pages without a field leave it empty. */
  datatype FormData = FormData(name: string, email: string, password: string, confirmPassword: string)

  type Errors = map<FormField, string>

  const NameRequired := "Name is required"
  const NameTooShort := "Name must be at least 2 characters"
  const EmailRequired := "Email is required"
  const EmailInvalid := "Please enter a valid email"
  const PasswordRequired := "Password is required"
  const PasswordTooShort := "Password must be at least 6 characters"
  const ConfirmRequired := "Please confirm your password"
  const ConfirmMismatch := "Passwords do not match"

  /** Adds `field`'s message when there is one. */
  function Note(errs: Errors, field: FormField, message: Option<string>): (r: Errors)
    ensures field in r <==> field in errs || message.Some?
    ensures message.Some? ==> r[field] == message.value
    ensures forall f :: f != field ==> (f in r <==> f in errs) && (f in r ==> r[f] == errs[f])
  {
    if message.Some? then errs[field := message.value] else errs
  }

  function NameMessage(n: string): (m: Option<string>)
    ensures m.None? <==> Utf16Length(n) >= 2
    ensures m.Some? ==> m.value == (if n == "" then NameRequired else NameTooShort)
  {
    if n == "" then Some(NameRequired)
    else if Utf16Length(n) < 2 then Some(NameTooShort)
    else None
  }

  function EmailMessage(e: string): (m: Option<string>)
    ensures m.None? <==> EmailShaped(e)
    ensures m.Some? ==> m.value == (if e == "" then EmailRequired else EmailInvalid)
  {
    if e == "" then Some(EmailRequired)
    else if !EmailShaped(e) then Some(EmailInvalid)
    else None
  }

  /** The sign-up and reset rule for a new password. */
  function NewPasswordMessage(p: string): (m: Option<string>)
    ensures m.None? <==> Utf16Length(p) >= 6
    ensures m.Some? ==> m.value == (if p == "" then PasswordRequired else PasswordTooShort)
  {
    if p == "" then Some(PasswordRequired)
    else if Utf16Length(p) < 6 then Some(PasswordTooShort)
    else None
  }

  function ConfirmMessage(p: string, c: string): (m: Option<string>)
    ensures m.None? <==> c != "" && c == p
    ensures m.Some? ==> m.value == (if c == "" then ConfirmRequired else ConfirmMismatch)
  {
    if c == "" then Some(ConfirmRequired)
    else if p != c then Some(ConfirmMismatch)
    else None
  }

  /** The sign-up page's `validateForm`. */
  function SignupErrors(f: FormData): (errs: Errors)
    ensures General !in errs
  {
    var e := Note(map[], Name, NameMessage(f.name));
    var e := Note(e, Email, EmailMessage(f.email));
    var e := Note(e, Password, NewPasswordMessage(f.password));
    Note(e, ConfirmPassword, ConfirmMessage(f.password, f.confirmPassword))
  }

  /** What the sign-up page lets through, stated independently of the messages. */
  predicate SignupValid(f: FormData) {
    && Utf16Length(f.name) >= 2 && EmailShaped(f.email)
    && Utf16Length(f.password) >= 6 && f.confirmPassword == f.password
  }

  lemma SignupErrorsIffInvalid(f: FormData)
    ensures SignupErrors(f) == map[] <==> SignupValid(f)
    ensures Name in SignupErrors(f) <==> Utf16Length(f.name) < 2
    ensures Email in SignupErrors(f) <==> !EmailShaped(f.email)
    ensures Password in SignupErrors(f) <==> Utf16Length(f.password) < 6
    ensures ConfirmPassword in SignupErrors(f) <==> f.confirmPassword == "" || f.confirmPassword != f.password
  {
    if SignupValid(f) {
      assert f.password != "";
    }
  }

  /** The login page's `validateForm`: no length rule on the password. */
  function LoginErrors(f: FormData): (errs: Errors)
    ensures errs.Keys <= {Email, Password}
  {
    var e := Note(map[], Email, EmailMessage(f.email));
    Note(e, Password, if f.password == "" then Some(PasswordRequired) else None)
  }

  predicate LoginValid(f: FormData) {
    EmailShaped(f.email) && f.password != ""
  }

  lemma LoginErrorsIffInvalid(f: FormData)
    ensures LoginErrors(f) == map[] <==> LoginValid(f)
    ensures Password in LoginErrors(f) ==> LoginErrors(f)[Password] == PasswordRequired
  {
  }

  /** The reset page's `validateForm`: the sign-up password rules alone. */
  function ResetErrors(f: FormData): (errs: Errors)
    ensures errs.Keys <= {Password, ConfirmPassword}
  {
    var e := Note(map[], Password, NewPasswordMessage(f.password));
    Note(e, ConfirmPassword, ConfirmMessage(f.password, f.confirmPassword))
  }

  predicate ResetValid(f: FormData) {
    Utf16Length(f.password) >= 6 && f.confirmPassword == f.password
  }

  lemma ResetErrorsIffInvalid(f: FormData)
    ensures ResetErrors(f) == map[] <==> ResetValid(f)
  {
    if ResetValid(f) {
      assert f.password != "";
    }
  }

  /** Every form the sign-up page accepts, the reset and login pages accept too. */
  lemma SignupIsStrictest(f: FormData)
    requires SignupValid(f)
    ensures ResetValid(f) && LoginValid(f)
  {
  }

  // ----- Submitting -----

  /** What a submit leaves behind: the errors shown, the spinner, and the request made. */
  datatype Submitted<R(==)> = Submitted(errors: Errors, loading: bool, request: Option<R>)

  datatype Signup = Signup(name: string, email: string, password: string)

  /** The sign-up page's `handleSubmit` up to the request: only a valid form is sent. */
  function SubmitSignup(f: FormData): (r: Submitted<Signup>)
    ensures r.errors == SignupErrors(f)
    ensures r.request.Some? <==> SignupValid(f)
    ensures r.request.Some? ==> r.loading && r.request.value == Signup(f.name, f.email, f.password)
  {
    SignupErrorsIffInvalid(f);
    var errs := SignupErrors(f);
    if errs == map[] then Submitted(errs, true, Some(Signup(f.name, f.email, f.password)))
    else Submitted(errs, false, None)
  }

  datatype Login = Login(email: string, password: string)

  /** The login page's `handleSubmit` up to the request. */
  function SubmitLogin(f: FormData): (r: Submitted<Login>)
    ensures r.errors == LoginErrors(f)
    ensures r.request.Some? <==> LoginValid(f)
    ensures r.request.Some? ==> r.loading && r.request.value == Login(f.email, f.password)
  {
    LoginErrorsIffInvalid(f);
    var errs := LoginErrors(f);
    if errs == map[] then Submitted(errs, true, Some(Login(f.email, f.password)))
    else Submitted(errs, false, None)
  }

  /** Where a page goes once the sign-up or login reply is in: the dashboard, or a general error. */
  datatype Reply = Reply(success: bool, error: string)

  datatype Landing = Landing(errors: Errors, loading: bool, destination: Option<string>)

  function AfterReply(errors: Errors, reply: Reply): (l: Landing)
    ensures !l.loading
    ensures reply.success ==> l.destination == Some("/dashboard") && l.errors == errors
    ensures !reply.success ==> l.destination.None? && l.errors == map[General := reply.error]
  {
    if reply.success then Landing(errors, false, Some("/dashboard"))
    else Landing(map[General := reply.error], false, None)
  }

  /** The reset page's `handleSubmit`: a valid form starts the simulated request, which ends on the login page. */
  function SubmitReset(f: FormData): (r: Submitted<string>)
    ensures r.errors == ResetErrors(f)
    ensures r.request.Some? <==> ResetValid(f)
    ensures r.request.Some? ==> r.loading && r.request.value == "/login"
  {
    ResetErrorsIffInvalid(f);
    var errs := ResetErrors(f);
    if errs == map[] then Submitted(errs, true, Some("/login"))
    else Submitted(errs, false, None)
  }

  // ----- Editing a field -----

  function Get(f: FormData, field: FormField): string {
    match field
    case Name => f.name
    case Email => f.email
    case Password => f.password
    case ConfirmPassword => f.confirmPassword
    case General => ""
  }

  function Set(f: FormData, field: FormField, v: string): (g: FormData)
    requires field != General
    ensures Get(g, field) == v
    ensures forall other :: other != field ==> Get(g, other) == Get(f, other)
  {
    match field
    case Name => f.(name := v)
    case Email => f.(email := v)
    case Password => f.(password := v)
    case ConfirmPassword => f.(confirmPassword := v)
  }

  /** Whether a field shows an error: a key with a non-empty message. */
  predicate Shows(errs: Errors, field: FormField) {
    field in errs && errs[field] != ""
  }

  datatype Page = Page(form: FormData, errors: Errors)

  /** `handleChange`: stores the value and blanks that field's shown error; other errors stay. */
  function HandleChange(p: Page, field: FormField, v: string): (q: Page)
    requires field != General
    ensures Get(q.form, field) == v && !Shows(q.errors, field)
    ensures forall other :: other != field ==> Get(q.form, other) == Get(p.form, other)
    ensures forall other :: other != field ==> (other in q.errors <==> other in p.errors)
    ensures forall other :: other != field && other in q.errors ==> q.errors[other] == p.errors[other]
    ensures Shows(p.errors, field) ==> field in q.errors
  {
    var errs := if Shows(p.errors, field) then p.errors[field := ""] else p.errors;
    Page(Set(p.form, field, v), errs)
  }

  // ----- Forgotten password -----

  datatype Forgot = Forgot(email: string, loading: bool, success: bool, errors: Errors)

  const ForgotInitial := Forgot("", false, false, map[])

  /** `handleSubmit`: the email rule of the other forms, and on success the simulated request starts. */
  function SubmitForgot(s: Forgot): (t: Forgot)
    ensures t.email == s.email && t.success == s.success
    ensures EmailShaped(s.email) ==> t.loading && t.errors == map[]
    ensures !EmailShaped(s.email) ==> t.loading == s.loading && t.errors == map[Email := EmailMessage(s.email).value]
  {
    if s.email == "" then s.(errors := map[Email := EmailRequired])
    else if !EmailShaped(s.email) then s.(errors := map[Email := EmailInvalid])
    else s.(loading := true, errors := map[])
  }

  /** The simulated request finishing. */
  function RequestDone(s: Forgot): (t: Forgot)
    ensures !t.loading && t.success && t.email == s.email && t.errors == s.errors
  {
    s.(loading := false, success := true)
  }

  /** The input's change handler: any shown email error clears every error. */
  function EditForgot(s: Forgot, v: string): (t: Forgot)
    ensures t.email == v && t.loading == s.loading && t.success == s.success
    ensures Shows(s.errors, Email) ==> t.errors == map[]
    ensures !Shows(s.errors, Email) ==> t.errors == s.errors
  {
    s.(email := v, errors := if Shows(s.errors, Email) then map[] else s.errors)
  }

  /** The forgotten-password page rejects exactly the emails the login page rejects, with the same message. */
  lemma ForgotAgreesWithLogin(s: Forgot, password: string)
    ensures var login := LoginErrors(FormData("", s.email, password, ""));
      (Email in SubmitForgot(s).errors <==> Email in login)
      && (Email in login ==> SubmitForgot(s).errors[Email] == login[Email])
  {
  }

  /** A well-formed email reaches success after one submit and the request finishing. */
  lemma ForgotReachesSuccess(e: string)
    requires EmailShaped(e)
    ensures RequestDone(SubmitForgot(EditForgot(ForgotInitial, e))).success
    ensures RequestDone(SubmitForgot(EditForgot(ForgotInitial, e))).errors == map[]
  {
  }

  // ----- Against the server's rules -----

  /** A password (absent or given) with no digit fails registration, whatever the other fields. */
  lemma NoDigitFailsRegistration(b: UserValidation.Body, isEmail: string -> bool, normalize: string -> string)
    requires forall i :: 0 <= i < |UserValidation.Read(b.password)| ==> !IsDigit(UserValidation.Read(b.password)[i])
    ensures !UserValidation.RegistrationAcceptable(b, isEmail, normalize)
  {
    var pw := UserValidation.Read(b.password);
    var line := UserValidation.FirstLine(pw);
    forall i | 0 <= i < |line| ensures !IsDigit(line[i]) {
      assert line[i] == pw[i];
    }
    assert !UserValidation.LowerAndDigitUpFront(pw);
  }

  /**
   * A name (absent or given) made only of white space fails registration,
   * whatever the other fields: the server trims it first.
   */
  lemma BlankNameFailsRegistration(b: UserValidation.Body, isEmail: string -> bool, normalize: string -> string)
    requires forall i :: 0 <= i < |UserValidation.Read(b.name)| ==> IsSpace(UserValidation.Read(b.name)[i])
    ensures !UserValidation.RegistrationAcceptable(b, isEmail, normalize)
  {
    TrimBlank(UserValidation.Read(b.name));
  }

  /**
   * The sign-up page is looser than registration: a password of six
   * lower-case letters passes the page and fails the server's rule for a
   * lower-case letter and a digit, and a name of two spaces passes the page
   * but is empty once the server trims it.
   */
  lemma PageLooserThanServer(isEmail: string -> bool, normalize: string -> string)
    ensures SignupValid(FormData("ab", "a@b.c", "abcdef", "abcdef"))
    ensures !UserValidation.RegistrationAcceptable(
      UserValidation.Body(Some("ab"), Some("a@b.c"), Some("abcdef"), None), isEmail, normalize)
    ensures SignupValid(FormData("  ", "a@b.c", "abcdef", "abcdef"))
    ensures !UserValidation.RegistrationAcceptable(
      UserValidation.Body(Some("  "), Some("a@b.c"), Some("abcdef"), None), isEmail, normalize)
  {
    EmailExamples();
    assert Utf16Length("ab") == 2 && Utf16Length("  ") == 2 && Utf16Length("abcdef") == 6;
    LettersOnlyPasswordRefused(isEmail, normalize);
    SpacesNameRefused(isEmail, normalize);
  }

  lemma LettersOnlyPasswordRefused(isEmail: string -> bool, normalize: string -> string)
    ensures !UserValidation.RegistrationAcceptable(
      UserValidation.Body(Some("ab"), Some("a@b.c"), Some("abcdef"), None), isEmail, normalize)
  {
    var noDigit := UserValidation.Body(Some("ab"), Some("a@b.c"), Some("abcdef"), None);
    assert UserValidation.Read(noDigit.password) == "abcdef";
    NoDigitFailsRegistration(noDigit, isEmail, normalize);
  }

  lemma SpacesNameRefused(isEmail: string -> bool, normalize: string -> string)
    ensures !UserValidation.RegistrationAcceptable(
      UserValidation.Body(Some("  "), Some("a@b.c"), Some("abcdef"), None), isEmail, normalize)
  {
    var blank := UserValidation.Body(Some("  "), Some("a@b.c"), Some("abcdef"), None);
    assert UserValidation.Read(blank.name) == "  ";
    BlankNameFailsRegistration(blank, isEmail, normalize);
  }
}
