/** The sign-in form: the email pattern, the per-field validator, and the
    form's values, touched flags and displayed errors as they change on
    typing, leaving a field and submitting. */
module Login {
  import opened Common
  import opened Text

  // ----- the email pattern -----

  /** A run the pattern's `[^\s@]+` accepts: non-empty, with no white space
      and no '@'. */
  predicate Segment(t: string) {
    |t| > 0 && forall k :: 0 <= k < |t| ==> !IsSpace(t[k]) && t[k] != '@'
  }

  /** `s` matches the pattern with its '@' at `i` and the chosen '.' at `j`. */
  predicate SplitsAt(s: string, i: int, j: int) {
    0 <= i < j < |s| && s[i] == '@' && s[j] == '.' &&
    Segment(s[..i]) && Segment(s[i + 1..j]) && Segment(s[j + 1..])
  }

  /** The email pattern: some run, '@', some run, '.', some run, covering
      the whole string. */
  ghost predicate EmailPattern(s: string) {
    exists i, j :: SplitsAt(s, i, j)
  }

  /** Position of the first `c` in `s`. */
  function FirstIndex(s: string, c: char): (i: nat)
    requires c in s
    ensures i < |s| && s[i] == c && c !in s[..i]
  {
    if s[0] == c then 0
    else
      assert s == [s[0]] + s[1..];
      var k := FirstIndex(s[1..], c);
      assert s[..k + 1] == [s[0]] + s[1..][..k];
      k + 1
  }

  predicate NoSpace(s: string) {
    forall k :: 0 <= k < |s| ==> !IsSpace(s[k])
  }

  /** The pattern as a direct test: no white space, exactly one '@' with
      something before it, and a '.' after the '@' with something on both
      of its sides. */
  predicate EmailOk(s: string) {
    NoSpace(s) && '@' in s &&
    var i := FirstIndex(s, '@');
    0 < i && '@' !in s[i + 1..] && i + 2 < |s| - 1 && '.' in s[i + 2..|s| - 1]
  }

  lemma PatternGivesOk(s: string, i: int, j: int)
    requires SplitsAt(s, i, j)
    ensures EmailOk(s)
  {
    assert s[..i] + [s[i]] + s[i + 1..j] + [s[j]] + s[j + 1..] == s;
    forall k | 0 <= k < |s|
      ensures !IsSpace(s[k])
    {
      if k < i {
        assert s[k] == s[..i][k];
      } else if i < k < j {
        assert s[k] == s[i + 1..j][k - i - 1];
      } else if j < k {
        assert s[k] == s[j + 1..][k - j - 1];
      }
    }
    assert '@' !in s[..i] by {
      forall k | 0 <= k < i ensures s[..i][k] != '@' { }
    }
    assert FirstIndex(s, '@') == i;
    assert '@' !in s[i + 1..] by {
      forall k | i + 1 <= k < |s|
        ensures s[k] != '@'
      {
        if k < j {
          assert s[k] == s[i + 1..j][k - i - 1];
        } else if j < k {
          assert s[k] == s[j + 1..][k - j - 1];
        }
      }
    }
    assert s[i + 2..|s| - 1][j - i - 2] == '.';
  }

  lemma OkGivesPattern(s: string)
    requires EmailOk(s)
    ensures EmailPattern(s)
  {
    var i := FirstIndex(s, '@');
    var mid := s[i + 2..|s| - 1];
    var d := FirstIndex(mid, '.');
    var j := i + 2 + d;
    assert s[j] == mid[d];
    forall k | 0 <= k < |s| && k != i
      ensures s[k] != '@'
    {
      if k < i {
        assert s[..i][k] == s[k];
      } else {
        assert s[i + 1..][k - i - 1] == s[k];
      }
    }
    assert Segment(s[..i]);
    assert Segment(s[i + 1..j]);
    assert Segment(s[j + 1..]);
    assert SplitsAt(s, i, j);
  }

  /** The direct test decides the pattern. */
  lemma EmailOkIffPattern(s: string)
    ensures EmailOk(s) <==> EmailPattern(s)
  {
    if EmailPattern(s) {
      var i, j :| SplitsAt(s, i, j);
      PatternGivesOk(s, i, j);
    }
    if EmailOk(s) {
      OkGivesPattern(s);
    }
  }

  // ----- validation -----

  datatype FieldError = EmailRequired | EmailInvalid | PasswordRequired | PasswordMin

  /** The text shown for each error. */
  function Message(e: FieldError): string {
    match e
    case EmailRequired => "Email is required"
    case EmailInvalid => "Enter a valid email"
    case PasswordRequired => "Password is required"
    case PasswordMin => "Minimum 6 characters"
  }

  /** The shortest password accepted, counted before trimming. */
  const MinPasswordLength := 6

  datatype Values = Values(email: string, password: string)
  datatype Errors = Errors(email: Option<FieldError>, password: Option<FieldError>)
  {
    predicate IsEmpty() { email.None? && password.None? }
  }

  function EmailError(email: string): Option<FieldError> {
    if Trim(email) == [] then Some(EmailRequired)
    else if !EmailOk(email) then Some(EmailInvalid)
    else None
  }

  function PasswordError(password: string): Option<FieldError> {
    if Trim(password) == [] then Some(PasswordRequired)
    else if |password| < MinPasswordLength then Some(PasswordMin)
    else None
  }

  /** `validate`: at most one error per field, each field judged on its own. */
  function Validate(v: Values): Errors {
    Errors(EmailError(v.email), PasswordError(v.password))
  }

  /** What the validator reports, field by field: a blank email is required
      (and not pattern-checked), a non-blank one must match the pattern; a
      blank password is required, a non-blank one must have at least six
      characters, spaces included. */
  lemma ValidateMeaning(v: Values)
    ensures Validate(v).email == Some(EmailRequired) <==> IsBlank(v.email)
    ensures Validate(v).email == Some(EmailInvalid) <==> !IsBlank(v.email) && !EmailPattern(v.email)
    ensures Validate(v).email.None? <==> !IsBlank(v.email) && EmailPattern(v.email)
    ensures Validate(v).password == Some(PasswordRequired) <==> IsBlank(v.password)
    ensures Validate(v).password == Some(PasswordMin) <==> !IsBlank(v.password) && |v.password| < 6
    ensures Validate(v).password.None? <==> !IsBlank(v.password) && |v.password| >= 6
  {
    TrimEmptyIffBlank(v.email);
    TrimEmptyIffBlank(v.password);
    EmailOkIffPattern(v.email);
  }

  /** Changing one field never changes the other field's error. */
  lemma ValidateIndependent(v: Values, email: string, password: string)
    ensures Validate(v.(email := email)).password == Validate(v).password
    ensures Validate(v.(password := password)).email == Validate(v).email
  {
  }

  /** A typical address passes, one without a dot after the '@' does not. */
  lemma EmailExamples()
    ensures SplitsAt("a@b.co", 1, 3)
    ensures EmailPattern("a@b.co")
    ensures !EmailPattern("a@bco")
  {
    assert "a@b.co"[..1] == "a";
    assert "a@b.co"[2..3] == "b";
    assert "a@b.co"[4..] == "co";
    assert SplitsAt("a@b.co", 1, 3);
    EmailOkIffPattern("a@bco");
    assert FirstIndex("a@bco", '@') == 1;
    assert "a@bco"[3..4] == "c";
  }

  // ----- the form -----

  datatype Field = Email | Password
  datatype Touched = Touched(email: bool, password: bool)
  {
    function Get(f: Field): bool {
      match f
      case Email => email
      case Password => password
    }
  }

  /** The login request the form sends: the email is the user name. */
  datatype Credentials = Credentials(username: string, password: string)

  function Set(v: Values, f: Field, value: string): Values {
    match f
    case Email => v.(email := value)
    case Password => v.(password := value)
  }

  function Touch(t: Touched, f: Field): Touched {
    match f
    case Email => t.(email := true)
    case Password => t.(password := true)
  }

  class LoginForm {
    var values: Values
    var touched: Touched
    var errors: Errors

    /** Once both fields have been touched the displayed errors are always
        those of the current values. */
    ghost predicate Valid()
      reads this
    {
      touched.email && touched.password ==> errors == Validate(values)
    }

    constructor ()
      ensures Valid()
      ensures values == Values("", "") && touched == Touched(false, false)
      ensures errors == Errors(None, None)
    {
      values := Values("", "");
      touched := Touched(false, false);
      errors := Errors(None, None);
    }

    /** `handleChange`: store the new value; re-validate, both fields, only
        when the edited field has been touched. */
    method Change(f: Field, value: string)
      requires Valid()
      modifies this
      ensures Valid()
      ensures values == Set(old(values), f, value) && touched == old(touched)
      ensures touched.Get(f) ==> errors == Validate(values)
      ensures !touched.Get(f) ==> errors == old(errors)
    {
      values := Set(values, f, value);
      if touched.Get(f) {
        errors := Validate(values);
      }
    }

    /** `handleBlur`: mark the field touched and validate the form. */
    method Blur(f: Field)
      requires Valid()
      modifies this
      ensures Valid()
      ensures touched == Touch(old(touched), f) && values == old(values)
      ensures errors == Validate(values)
    {
      touched := Touch(touched, f);
      errors := Validate(values);
    }

    /** `handleSubmit`: validate, touch both fields, and send the login
        request exactly when there is no error. */
    method Submit() returns (sent: Option<Credentials>)
      requires Valid()
      modifies this
      ensures Valid()
      ensures touched == Touched(true, true) && values == old(values)
      ensures errors == Validate(values)
      ensures sent.Some? <==> errors.IsEmpty()
      ensures sent.Some? ==> sent.value == Credentials(values.email, values.password)
    {
      errors := Validate(values);
      touched := Touched(true, true);
      if errors.IsEmpty() {
        sent := Some(Credentials(values.email, values.password));
      } else {
        sent := None;
      }
    }
  }

  /** A sent request always carries a well-formed email and a password of
      at least six characters. */
  lemma SentIsValid(v: Values)
    requires Validate(v).IsEmpty()
    ensures EmailPattern(v.email) && !IsBlank(v.email)
    ensures |v.password| >= MinPasswordLength && !IsBlank(v.password)
  {
    ValidateMeaning(v);
  }
}
