/**
 * The checks of `frontend/screens/RegisterScreen.js`: the e-mail pattern
 * `/^[^\s@]+@[^\s@]+\.[^\s@]+$/` and the order in which `handleRegister`
 * refuses a form before it calls `register`. The alerts and the loading flag
 * are left out; a refusal is the alert's message.
 */
module RegisterScreen {
  import opened Wrappers
  import opened JsText

  const NAME_REQUIRED: string := "Please enter your name"
  const EMAIL_INVALID: string := "Please enter a valid email address"
  const PASSWORD_TOO_SHORT: string := "Password must be at least 6 characters long"
  const PASSWORDS_DIFFER: string := "Passwords do not match"
  const MIN_PASSWORD_LENGTH: nat := 6

  /** The class `[^\s@]`. */
  predicate Plain(c: char) {
    !IsJsSpace(c) && c != '@'
  }

  predicate AllPlain(s: string) {
    forall k :: 0 <= k < |s| ==> Plain(s[k])
  }

  /**
   * What the pattern describes: a non-empty local part, one `@`, and a domain in
   * which a `.` has at least one character on each side, with no white space and
   * no other `@` anywhere.
   */
  ghost predicate EmailShape(s: string) {
    exists i, j :: 0 < i && i + 1 < j && j + 1 < |s| && s[i] == '@' && s[j] == '.'
                   && AllPlain(s[..i]) && AllPlain(s[i + 1..])
  }

  /** `validateEmail`: the match attempted at the first `@`, the only one a match can use. */
  function ValidateEmail(s: string): (ok: bool)
    ensures ok ==> '@' in s
  {
    var at := IndexOf(s, '@');
    if at <= 0 then false
    else
      var domain := s[at + 1..];
      AllPlain(s[..at]) && AllPlain(domain) && |domain| >= 3 && '.' in domain[1..|domain| - 1]
  }

  /** The test agrees with the pattern in both directions. */
  lemma ValidateEmailIffShape(s: string)
    ensures ValidateEmail(s) <==> EmailShape(s)
  {
    if ValidateEmail(s) {
      ValidatedHasShape(s);
    }
    if EmailShape(s) {
      ShapeValidates(s);
    }
  }

  lemma ValidatedHasShape(s: string)
    requires ValidateEmail(s)
    ensures EmailShape(s)
  {
    var at := IndexOf(s, '@');
    var domain := s[at + 1..];
    var inner := domain[1..|domain| - 1];
    var m :| 0 <= m < |inner| && inner[m] == '.';
    var j := at + 2 + m;
    assert s[j] == domain[m + 1] == '.';
    assert AllPlain(s[..at]) && AllPlain(s[at + 1..]);
    assert 0 < at && at + 1 < j && j + 1 < |s| && s[at] == '@';
  }

  lemma ShapeValidates(s: string)
    requires EmailShape(s)
    ensures ValidateEmail(s)
  {
    var i, j :| 0 < i && i + 1 < j && j + 1 < |s| && s[i] == '@' && s[j] == '.'
                && AllPlain(s[..i]) && AllPlain(s[i + 1..]);
    ShapeAtValidates(s, i, j);
  }

  /** The pattern's witnesses: the `@` at `i` is the first, and the `.` at `j` is inside the domain. */
  lemma ShapeAtValidates(s: string, i: nat, j: nat)
    requires 0 < i && i + 1 < j && j + 1 < |s| && s[i] == '@' && s[j] == '.'
    requires AllPlain(s[..i]) && AllPlain(s[i + 1..])
    ensures ValidateEmail(s)
  {
    AtIsFirst(s, i, IndexOf(s, '@'));
    DotInDomain(s[i + 1..], j - i - 1);
    ValidateEmailAt(s, i);
  }

  /** A `.` strictly inside the domain is found by the check on its inner part. */
  lemma DotInDomain(domain: string, m: nat)
    requires 0 < m < |domain| - 1 && domain[m] == '.'
    ensures '.' in domain[1..|domain| - 1]
  {
    assert domain[1..|domain| - 1][m - 1] == '.';
  }

  /** The test accepts when the first `@` is at `at` and both sides pass. */
  lemma ValidateEmailAt(s: string, at: nat)
    requires 0 < at < |s| && at == IndexOf(s, '@')
    requires AllPlain(s[..at]) && AllPlain(s[at + 1..])
    requires |s[at + 1..]| >= 3 && '.' in s[at + 1..][1..|s[at + 1..]| - 1]
    ensures ValidateEmail(s)
  {
  }

  /** An `@` with no `@` before it is the one `indexOf` finds. */
  lemma AtIsFirst(s: string, i: nat, at: int)
    requires i < |s| && s[i] == '@' && AllPlain(s[..i]) && at == IndexOf(s, '@')
    ensures at == i
  {
    assert '@' in s;
  }

  /** A string of plain characters keeps the pattern's shape under `toLowerCase`. */
  lemma LowerKeepsShape(s: string)
    requires ValidateEmail(s)
    ensures ValidateEmail(ToLower(s))
  {
    ValidatedHasShape(s);
    var i, j :| 0 < i && i + 1 < j && j + 1 < |s| && s[i] == '@' && s[j] == '.'
                && AllPlain(s[..i]) && AllPlain(s[i + 1..]);
    LowerAtWitnesses(s, i, j);
  }

  lemma LowerAtWitnesses(s: string, i: nat, j: nat)
    requires 0 < i && i + 1 < j && j + 1 < |s| && s[i] == '@' && s[j] == '.'
    requires AllPlain(s[..i]) && AllPlain(s[i + 1..])
    ensures ValidateEmail(ToLower(s))
  {
    var t := ToLower(s);
    assert t[i] == '@' && t[j] == '.';
    LowerSlices(s, i);
    LowerAllPlain(s[..i]);
    LowerAllPlain(s[i + 1..]);
    ShapeAtValidates(t, i, j);
  }

  lemma LowerSlices(s: string, i: nat)
    requires i < |s|
    ensures ToLower(s)[..i] == ToLower(s[..i]) && ToLower(s)[i + 1..] == ToLower(s[i + 1..])
  {
  }

  lemma LowerAllPlain(u: string)
    requires AllPlain(u)
    ensures AllPlain(ToLower(u))
  {
    forall k | 0 <= k < |u| ensures Plain(ToLower(u)[k]) {
      PlainLower(u[k]);
    }
  }

  lemma PlainLower(c: char)
    requires Plain(c)
    ensures Plain(ToLowerChar(c))
  {
  }

  /** A string with no white space at either end is its own `trim()`. */
  lemma NoSpaceTrimmed(s: string)
    requires forall k :: 0 <= k < |s| ==> !IsJsSpace(s[k])
    ensures Trim(s) == s
  {
  }

  /** What `handleRegister` hands to `register`. */
  datatype RegisterCall = RegisterCall(name: string, email: string, password: string)

  /**
   * `handleRegister`: the checks run in the order of the source and the first that
   * fails is reported; only a form that passes all four calls `register`, with the
   * trimmed name, the trimmed lower-cased e-mail and the password as typed.
   */
  function HandleRegister(name: string, email: string, password: string, confirmPassword: string): (r: Result<RegisterCall, string>)
    ensures AllSpace(name) ==> r == Err(NAME_REQUIRED)
    ensures !AllSpace(name) && !ValidateEmail(Trim(email)) ==> r == Err(EMAIL_INVALID)
    ensures !AllSpace(name) && ValidateEmail(Trim(email)) && |password| < MIN_PASSWORD_LENGTH ==>
              r == Err(PASSWORD_TOO_SHORT)
    ensures (!AllSpace(name) && ValidateEmail(Trim(email)) && |password| >= MIN_PASSWORD_LENGTH
             && password != confirmPassword) ==> r == Err(PASSWORDS_DIFFER)
    ensures r.Ok? <==> !AllSpace(name) && ValidateEmail(Trim(email)) && |password| >= MIN_PASSWORD_LENGTH
                       && password == confirmPassword
    ensures r.Ok? ==> r.value == RegisterCall(Trim(name), ToLower(Trim(email)), password)
  {
    TrimEmptyIffAllSpace(name);
    if Trim(name) == "" then Err(NAME_REQUIRED)
    else if Trim(email) == "" || !ValidateEmail(Trim(email)) then Err(EMAIL_INVALID)
    else if |password| < MIN_PASSWORD_LENGTH then Err(PASSWORD_TOO_SHORT)
    else if password != confirmPassword then Err(PASSWORDS_DIFFER)
    else Ok(RegisterCall(Trim(name), ToLower(Trim(email)), password))
  }

  /**
   * The e-mail `register` receives passes the same pattern, is already trimmed and
   * lower-cased, and so is stored exactly as sent by a server that lower-cases it.
   */
  lemma SubmittedEmailIsNormal(name: string, email: string, password: string, confirmPassword: string)
    requires HandleRegister(name, email, password, confirmPassword).Ok?
    ensures var e := HandleRegister(name, email, password, confirmPassword).value.email;
      ValidateEmail(e) && Trim(e) == e && ToLower(e) == e && e != ""
  {
    var t := Trim(email);
    assert ValidateEmail(t);
    var e := ToLower(t);
    LowerKeepsShape(t);
    ToLowerIdempotent(t);
    ValidHasNoSpace(e);
    NoSpaceTrimmed(e);
  }

  /** A string the pattern accepts holds no white space at all. */
  lemma ValidHasNoSpace(s: string)
    requires ValidateEmail(s)
    ensures forall k :: 0 <= k < |s| ==> !IsJsSpace(s[k])
  {
    var at := IndexOf(s, '@');
    forall k | 0 <= k < |s| ensures !IsJsSpace(s[k]) {
      if k < at {
        assert s[..at][k] == s[k];
      } else if k > at {
        assert s[at + 1..][k - at - 1] == s[k];
      }
    }
  }

  /** The blank-e-mail test is subsumed by the pattern: a blank e-mail never matches. */
  lemma BlankEmailNeverMatches(email: string)
    requires AllSpace(email)
    ensures !ValidateEmail(Trim(email))
  {
    TrimEmptyIffAllSpace(email);
  }
}
