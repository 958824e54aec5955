/** The client-side checks of the signup form: validateEmail, validatePassword, validateUsername and
    the order in which handleSubmit applies them before it posts the form. The React state, axios and
    the navigation after a successful request are not modelled. */
module SignupForm {
  import opened Js
  import EmailFormat
  import opened UserModel

  /** The four fields of the form, as typed. */
  datatype Form = Form(username: string, email: string, password: string, confirmPassword: string)

  // validateEmail is the same regular expression as the schema's e-mail validator: EmailFormat.Matches.

  /** validatePassword: at least 12 characters. */
  predicate ValidatePassword(password: string) {
    |password| >= 12
  }

  /** validateUsername: at least 5 characters. */
  predicate ValidateUsername(username: string) {
    |username| >= 5
  }

  const InvalidEmail := "Invalid email format"
  const ShortPassword := "Password must be at least 12 characters long"
  const ShortUsername := "Username must be at least 5 characters long"
  const Mismatch := "Passwords do not match"

  /** handleSubmit up to the request: the error message of the first check that fails, or None when
      every check passes and the form is posted to /signup. */
  function HandleSubmit(f: Form): Option<string> {
    if !EmailFormat.Matches(f.email) then Some(InvalidEmail)
    else if !ValidatePassword(f.password) then Some(ShortPassword)
    else if !ValidateUsername(f.username) then Some(ShortUsername)
    else if f.password != f.confirmPassword then Some(Mismatch)
    else None
  }

  /** The four checks, in the order the form applies them. */
  function Checks(f: Form): seq<bool> {
    [EmailFormat.Matches(f.email), ValidatePassword(f.password), ValidateUsername(f.username),
     f.password == f.confirmPassword]
  }

  const Messages: seq<string> := [InvalidEmail, ShortPassword, ShortUsername, Mismatch]

  /** Only the first failure is reported: the message is that of check i exactly when check i fails
      and every earlier check passes. */
  lemma SubmitFirstFailure(f: Form, i: nat)
    requires i < 4
    ensures HandleSubmit(f) == Some(Messages[i]) <==> !Checks(f)[i] && forall j :: 0 <= j < i ==> Checks(f)[j]
  {
    PassedBefore(f, i);
    assert Messages[0] != Messages[1] && Messages[0] != Messages[2] && Messages[0] != Messages[3];
    assert Messages[1] != Messages[2] && Messages[1] != Messages[3] && Messages[2] != Messages[3];
  }

  /** The checks before the i-th all pass, spelt out one by one. */
  lemma PassedBefore(f: Form, i: nat)
    requires i <= 4
    ensures var c := Checks(f);
      (forall j :: 0 <= j < i ==> c[j])
      <==> (i > 0 ==> c[0]) && (i > 1 ==> c[1]) && (i > 2 ==> c[2]) && (i > 3 ==> c[3])
  {
    var c := Checks(f);
    if (i > 0 ==> c[0]) && (i > 1 ==> c[1]) && (i > 2 ==> c[2]) && (i > 3 ==> c[3]) {
      forall j | 0 <= j < i
        ensures c[j]
      {
        assert j == 0 || j == 1 || j == 2 || j == 3;
      }
    }
  }

  /** The form is posted exactly when all four checks pass; otherwise one of the four messages is
      shown. */
  lemma SubmitSendsOnlyValid(f: Form)
    ensures HandleSubmit(f).None? <==> forall j :: 0 <= j < 4 ==> Checks(f)[j]
    ensures HandleSubmit(f).Some? ==> HandleSubmit(f).value in Messages
  {
    PassedBefore(f, 4);
  }

  /** A form the client posts passes the schema's validators on the server, once the username has no
      whitespace at either end: the e-mail's setters keep it matching and the lengths agree. */
  lemma PostedFormPassesSchema(f: Form)
    requires HandleSubmit(f).None? && Trimmed(f.username)
    ensures SchemaValid(NormalizeUsername(f.username), NormalizeEmail(f.email), f.password)
  {
    TrimmedIff(f.username);
    NormalizeMatching(f.email);
  }

  /** The client counts the username's length before the server trims it: "    x" passes the form
      and fails the schema's minimum length. */
  lemma PaddedUsernamePassesForm()
    ensures var f := Form("    x", "alice@x.com", "Abcdefgh123!", "Abcdefgh123!");
      && HandleSubmit(f).None?
      && !SchemaValid(NormalizeUsername(f.username), NormalizeEmail(f.email), f.password)
  {
    var email := "alice@x.com";
    assert email[5] == '@' && email[7] == '.' && EmailFormat.PlainExcept(email, 5);
    assert EmailFormat.Matches(email);
    var u := "    x";
    assert TrimStart(u) == TrimStart(u[1..]) == TrimStart(u[2..]) == TrimStart(u[3..]) == TrimStart(u[4..]);
    assert u[4..] == "x";
    assert TrimEnd("x") == "x";
    assert NormalizeUsername(u) == "x";
  }
}
