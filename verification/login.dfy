/** The admin sign-in form (src/pages/admin-login/components/LoginForm.jsx):
    field edits, validation with the e-mail pattern `\S+@\S+\.\S+`, and
    what a submission does for each sign-in outcome. */
module Login {
  import opened Wrappers
  import opened Text

  // ---------------------------------------------------------------------
  // The e-mail pattern

  /** Position `dot` completes a match that has its `'@'` at `at`: at least
      one non-space character between them, and one after the dot. */
  ghost predicate DotWorks(s: string, at: int, dot: int) {
    0 <= at && at + 1 < dot && dot + 1 < |s| && s[dot] == '.' && NoSpace(s[at + 1..dot + 2])
  }

  /** Position `at` holds an `'@'` preceded by a non-space character and
      followed by a completing dot. */
  ghost predicate AtWorks(s: string, at: int) {
    0 < at < |s| && s[at] == '@' && !IsSpace(s[at - 1]) && exists dot :: DotWorks(s, at, dot)
  }

  /** The unanchored pattern `\S+@\S+\.\S+` finds a match somewhere in `s`. */
  ghost predicate EmailShape(s: string) {
    exists at :: AtWorks(s, at)
  }

  /** Look for a completing dot after the `'@'` at `at`, scanning the run of
      non-space characters that follows it. */
  method HasDotAfter(s: string, at: nat) returns (found: bool)
    requires at < |s|
    ensures found <==> exists dot :: DotWorks(s, at, dot)
  {
    var j := at + 1;
    found := false;
    while j < |s| && !IsSpace(s[j]) && !found
      invariant at + 1 <= j <= |s|
      invariant NoSpace(s[at + 1..j])
      invariant found ==> exists dot :: DotWorks(s, at, dot)
      invariant !found ==> forall d :: d < j ==> !DotWorks(s, at, d)
    {
      assert s[at + 1..j + 1] == s[at + 1..j] + [s[j]];
      if j >= at + 2 && s[j] == '.' && j + 1 < |s| && !IsSpace(s[j + 1]) {
        assert s[at + 1..j + 2] == s[at + 1..j] + [s[j], s[j + 1]];
        assert DotWorks(s, at, j);
        found := true;
      } else if j + 1 < |s| && IsSpace(s[j + 1]) {
        assert s[at + 1..j + 2][j - at] == s[j + 1];
      }
      j := j + 1;
    }
    if !found {
      forall d | j <= d ensures !DotWorks(s, at, d) {
        if j < |s| && d + 1 < |s| {
          assert s[at + 1..d + 2][j - at - 1] == s[j];
        }
      }
    }
  }

  /** `/\S+@\S+\.\S+/.test(s)`. */
  method MatchesEmailPattern(s: string) returns (ok: bool)
    ensures ok <==> EmailShape(s)
  {
    ok := false;
    var at := 0;
    while at < |s| && !ok
      invariant 0 <= at <= |s|
      invariant ok ==> EmailShape(s)
      invariant !ok ==> forall a :: 0 <= a < at ==> !AtWorks(s, a)
    {
      if 0 < at && s[at] == '@' && !IsSpace(s[at - 1]) {
        ok := HasDotAfter(s, at);
        if ok {
          assert AtWorks(s, at);
        }
      }
      at := at + 1;
    }
  }

  /** Anything the pattern accepts has at least five characters and holds
      an `'@'` before a `'.'`. */
  lemma EmailShapeNeeds(s: string)
    requires EmailShape(s)
    ensures |s| >= 5
    ensures exists i, j :: 0 <= i < j < |s| && s[i] == '@' && s[j] == '.'
  {
    var at :| AtWorks(s, at);
    var dot :| DotWorks(s, at, dot);
  }

  /** The pattern is unanchored: text around an address does not stop it
      from matching. */
  lemma {:induction false} EmailShapeUnanchored(pre: string, s: string, post: string)
    requires EmailShape(s)
    ensures EmailShape(pre + s + post)
  {
    var at :| AtWorks(s, at);
    var dot :| DotWorks(s, at, dot);
    var t := pre + s + post;
    var k := |pre|;
    assert t[k + at + 1..k + dot + 2] == s[at + 1..dot + 2];
    assert DotWorks(t, k + at, k + dot);
    assert AtWorks(t, k + at);
  }

  lemma EmailShapeExample()
    ensures EmailShape("a@b.in")
  {
    var s := "a@b.in";
    assert s[2..5] == "b.i";
    assert DotWorks(s, 1, 3);
    assert AtWorks(s, 1);
  }

  // ---------------------------------------------------------------------
  // The form

  datatype LoginFields = LoginFields(email: string, password: string, rememberMe: bool)

  datatype LoginField = Email | Password | RememberMe

  type Errors = map<LoginField, string>

  const InitialFields := LoginFields("", "", false)

  const MinPasswordLength: nat := 6

  /** `validateForm`: at most one message per field, the format and length
      checks only for non-empty values. */
  method ValidateLogin(f: LoginFields) returns (errs: Errors)
    ensures RememberMe !in errs
    ensures f.email == "" ==> Email in errs && errs[Email] == "Email address is required"
    ensures f.email != "" && EmailShape(f.email) ==> Email !in errs
    ensures f.email != "" && !EmailShape(f.email) ==>
              Email in errs && errs[Email] == "Please enter a valid email address"
    ensures f.password == "" ==> Password in errs && errs[Password] == "Password is required"
    ensures f.password != "" && |f.password| < MinPasswordLength ==>
              Password in errs && errs[Password] == "Password must be at least 6 characters"
    ensures |f.password| >= MinPasswordLength ==> Password !in errs
    ensures errs == map[] <==> EmailShape(f.email) && |f.password| >= MinPasswordLength
  {
    errs := map[];
    if f.email == "" {
      errs := errs[Email := "Email address is required"];
    } else {
      var ok := MatchesEmailPattern(f.email);
      if !ok {
        errs := errs[Email := "Please enter a valid email address"];
      }
    }
    if f.password == "" {
      errs := errs[Password := "Password is required"];
    } else if |f.password| < MinPasswordLength {
      errs := errs[Password := "Password must be at least 6 characters"];
    }
    if f.email == "" && EmailShape(f.email) {
      EmailShapeNeeds(f.email);
    }
    if errs != map[] {
      assert Email in errs || Password in errs;
    }
  }

  /** A form event: typing into a text input or toggling the checkbox. */
  datatype Edit = SetEmail(email: string) | SetPassword(password: string) | SetRemember(checked: bool)

  function EditedField(e: Edit): LoginField {
    match e
    case SetEmail(_) => Email
    case SetPassword(_) => Password
    case SetRemember(_) => RememberMe
  }

  datatype FormState = FormState(fields: LoginFields, errors: Errors, loginError: string)

  /** `handleInputChange`: store the value, blank that field's error if it
      shows one, and clear the sign-in error. */
  function InputChange(s: FormState, e: Edit): (r: FormState)
    ensures r.loginError == ""
    ensures e.SetEmail? ==> r.fields == s.fields.(email := e.email)
    ensures e.SetPassword? ==> r.fields == s.fields.(password := e.password)
    ensures e.SetRemember? ==> r.fields == s.fields.(rememberMe := e.checked)
    ensures r.errors.Keys == s.errors.Keys
    ensures EditedField(e) in s.errors ==> r.errors[EditedField(e)] == ""
    ensures forall g :: g in s.errors && g != EditedField(e) ==> r.errors[g] == s.errors[g]
  {
    var fields := match e
      case SetEmail(v) => s.fields.(email := v)
      case SetPassword(v) => s.fields.(password := v)
      case SetRemember(c) => s.fields.(rememberMe := c);
    var g := EditedField(e);
    var errors := if g in s.errors && s.errors[g] != "" then s.errors[g := ""] else s.errors;
    FormState(fields, errors, "")
  }

  // ---------------------------------------------------------------------
  // Submission

  /** What the sign-in call and the admin lookup came back with. */
  datatype AuthResult =
    | SignedIn(isAdmin: bool)
    | AuthFailed(code: Option<string>, message: Option<string>)

  const NotAdminMessage := "Your account is not an admin for this project."

  const DashboardPath := "/admin-dashboard"

  /** `${e.code || 'auth/error'}: ${e.message || 'Login failed'}`. */
  function FailureMessage(code: Option<string>, message: Option<string>): (m: string)
    ensures code.None? && message.None? ==> m == "auth/error: Login failed"
  {
    OrText(code, "auth/error") + ": " + OrText(message, "Login failed")
  }

  function OrText(v: Option<string>, fallback: string): string {
    if v.Some? && v.value != "" then v.value else fallback
  }

  /** The sign-in call the form makes: the e-mail trimmed, the password as
      typed. */
  datatype Credentials = Credentials(email: string, password: string)

  /** Everything a submission changes: the errors, the call made (if any),
      the sign-in error, and on success the stored session and the
      navigation. */
  datatype Submitted = Submitted(
    errors: Errors,
    call: Option<Credentials>,
    loginError: string,
    storedEmail: Option<string>,
    rememberAdmin: bool,
    navigatedTo: Option<string>)

  /** `handleSubmit` with the outcome of the sign-in call as an input. */
  method Submit(f: LoginFields, outcome: AuthResult) returns (r: Submitted)
    ensures r.errors != map[] ==> r.call.None? && r.navigatedTo.None? && r.storedEmail.None?
    ensures r.errors == map[] <==> EmailShape(f.email) && |f.password| >= MinPasswordLength
    ensures r.call.Some? <==> r.errors == map[]
    ensures r.call.Some? ==> r.call.value == Credentials(Trim(f.email), f.password)
    ensures r.navigatedTo.Some? <==> r.call.Some? && outcome == SignedIn(true)
    ensures r.navigatedTo.Some? ==>
              r.navigatedTo.value == DashboardPath && r.storedEmail == Some(Trim(f.email))
              && r.rememberAdmin == f.rememberMe && r.loginError == ""
    ensures r.call.Some? && outcome == SignedIn(false) ==> r.loginError == NotAdminMessage
    ensures r.call.Some? && outcome.AuthFailed? ==>
              r.loginError == FailureMessage(outcome.code, outcome.message)
  {
    var errs := ValidateLogin(f);
    if errs != map[] {
      return Submitted(errs, None, "", None, false, None);
    }
    var call := Credentials(Trim(f.email), f.password);
    match outcome
    case SignedIn(isAdmin) =>
      if !isAdmin {
        r := Submitted(errs, Some(call), NotAdminMessage, None, false, None);
      } else {
        r := Submitted(errs, Some(call), "", Some(call.email), f.rememberMe, Some(DashboardPath));
      }
    case AuthFailed(code, message) =>
      r := Submitted(errs, Some(call), FailureMessage(code, message), None, false, None);
  }

  /** The e-mail is validated as typed but sent trimmed: surrounding blanks
      pass the unanchored pattern and are dropped from the call. */
  lemma PaddedEmailAccepted(s: string)
    requires EmailShape(s)
    ensures EmailShape(" " + s + " ")
    ensures Trim(" " + s + " ") == Trim(s)
  {
    EmailShapeUnanchored(" ", s, " ");
    var t := " " + s + " ";
    assert t[1..] == s + " ";
    DropSpacesPadding(s);
  }

  lemma DropSpacesPadding(s: string)
    ensures Trim(" " + s + " ") == Trim(s)
  {
    var t := " " + s + " ";
    assert t[1..] == s + " ";
    assert DropSpaces(t) == DropSpaces(s + " ");
    TrailingBlank(s);
  }

  /** One trailing blank is dropped by `trim`. */
  lemma {:induction false} TrailingBlank(s: string)
    ensures DropTrailingSpaces(DropSpaces(s + " ")) == DropTrailingSpaces(DropSpaces(s))
    decreases |s|
  {
    if |s| > 0 && IsSpace(s[0]) {
      assert (s + " ")[1..] == s[1..] + " ";
      TrailingBlank(s[1..]);
    } else if |s| > 0 {
      var d := DropSpaces(s + " ");
      assert d == s + " ";
      assert d[..|d| - 1] == s;
      assert DropSpaces(s) == s;
    }
  }
}
