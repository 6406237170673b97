/**
 * The field checks of the sign-up and sign-in forms.  Both pages test an email address
 * against `^[^\s@]+@[^\s@]+\.[^\s@]+$` and a password for a length of at least 8; the test
 * is defined once here.
 */
module Credentials {
  import opened Common

  /** The characters JavaScript's `\s` matches. */
  predicate IsSpace(c: char) {
    c == ' ' || c == '\t' || c == '\n' || c == '\U{B}' || c == '\U{C}' || c == '\r' ||
    c == '\U{A0}' || c == '\U{1680}' || ('\U{2000}' <= c <= '\U{200A}') ||
    c == '\U{2028}' || c == '\U{2029}' || c == '\U{202F}' || c == '\U{205F}' ||
    c == '\U{3000}' || c == '\U{FEFF}'
  }

  /** A run of `[^\s@]`. */
  ghost predicate Plain(s: string) {
    forall k :: 0 <= k < |s| ==> !IsSpace(s[k]) && s[k] != '@'
  }

  /**
   * What the pattern accepts: a non-empty local part, '@', and a domain with a '.' that has
   * something on both sides; no part holds a space or another '@'.
   */
  ghost predicate EmailPattern(e: string) {
    exists i: nat, j: nat :: SplitAt(e, i, j)
  }

  /** The index of the first '@', or the length when there is none. */
  function FirstAt(e: string): (r: nat)
    ensures r <= |e|
    ensures r < |e| ==> e[r] == '@'
    ensures forall k :: 0 <= k < r ==> e[k] != '@'
  {
    if e == [] then 0
    else if e[0] == '@' then 0
    else 1 + FirstAt(e[1..])
  }

  predicate NoSpace(e: string) {
    forall k :: 0 <= k < |e| ==> !IsSpace(e[k])
  }

  /** A '.' in the domain with at least one character before and after it. */
  predicate InnerDot(d: string) {
    exists j :: 1 <= j < |d| - 1 && d[j] == '.'
  }

  /**
   * `validateEmail`: no whitespace, exactly one '@', which is not the first character, and a
   * dotted domain after it.
   */
  predicate ValidEmail(e: string)
    ensures ValidEmail(e) ==> |e| >= 5 && '@' in e
  {
    && NoSpace(e)
    && multiset(e)['@'] == 1
    && 0 < FirstAt(e) < |e|
    && InnerDot(e[FirstAt(e) + 1..])
  }

  /** The '@' counts of the three pieces around position `i` add up. */
  lemma AtCountSplit(e: string, i: nat)
    requires i < |e|
    ensures multiset(e)['@'] == multiset(e[..i])['@'] + (if e[i] == '@' then 1 else 0) + multiset(e[i + 1..])['@']
  {
    assert e == e[..i] + [e[i]] + e[i + 1..];
  }

  lemma PlainHasNoAt(s: string)
    requires Plain(s)
    ensures multiset(s)['@'] == 0
  {
    assert '@' !in s;
  }

  lemma ValidEmailMatchesPattern(e: string)
    requires ValidEmail(e)
    ensures EmailPattern(e)
  {
    var i := FirstAt(e);
    var d := e[i + 1..];
    var j' :| 1 <= j' < |d| - 1 && d[j'] == '.';
    var j := i + 1 + j';
    AtCountSplit(e, i);
    assert multiset(d)['@'] == 0;
    assert '@' !in d;
    assert e[i + 1..j] == d[..j'];
    assert e[j + 1..] == d[j' + 1..];
    assert SplitAt(e, i, j);
  }

  /** The pieces of an address split at `i` ('@') and `j` ('.'), as the pattern reads it. */
  ghost predicate SplitAt(e: string, i: nat, j: nat) {
    0 < i && i + 1 < j && j + 1 < |e| && e[i] == '@' && e[j] == '.' &&
    Plain(e[..i]) && Plain(e[i + 1..j]) && Plain(e[j + 1..])
  }

  lemma SplitAtCount(e: string, i: nat, j: nat)
    requires SplitAt(e, i, j)
    ensures multiset(e)['@'] == 1
  {
    var d := e[i + 1..];
    assert d == e[i + 1..j] + [e[j]] + e[j + 1..];
    PlainHasNoAt(e[..i]);
    PlainHasNoAt(e[i + 1..j]);
    PlainHasNoAt(e[j + 1..]);
    AtCountSplit(e, i);
    assert multiset(d) == multiset(e[i + 1..j]) + multiset{'.'} + multiset(e[j + 1..]);
  }

  lemma SplitAtFirst(e: string, i: nat, j: nat)
    requires SplitAt(e, i, j)
    ensures FirstAt(e) == i
  {
    assert forall k :: 0 <= k < i ==> e[..i][k] == e[k];
  }

  lemma SplitAtNoSpace(e: string, i: nat, j: nat)
    requires SplitAt(e, i, j)
    ensures NoSpace(e)
  {
    forall k | 0 <= k < |e|
      ensures !IsSpace(e[k])
    {
      if k < i {
        assert e[..i][k] == e[k];
      } else if i < k < j {
        assert e[i + 1..j][k - i - 1] == e[k];
      } else if j < k {
        assert e[j + 1..][k - j - 1] == e[k];
      }
    }
  }

  lemma PatternIsValidEmail(e: string)
    requires EmailPattern(e)
    ensures ValidEmail(e)
  {
    var i, j :| SplitAt(e, i, j);
    SplitAtCount(e, i, j);
    SplitAtFirst(e, i, j);
    SplitAtNoSpace(e, i, j);
    assert e[i + 1..][j - i - 1] == '.';
  }

  /** The explicit test and the pattern accept the same addresses. */
  lemma ValidEmailIffPattern(e: string)
    ensures ValidEmail(e) <==> EmailPattern(e)
  {
    if ValidEmail(e) {
      ValidEmailMatchesPattern(e);
    }
    if EmailPattern(e) {
      PatternIsValidEmail(e);
    }
  }

  /** `validatePassword`: a valid password is never the empty one the required check catches. */
  predicate ValidPassword(p: string)
    ensures ValidPassword(p) ==> p != ""
  {
    |p| >= 8
  }

  const EmailRequired := "Email is required"
  const EmailInvalid := "Please enter a valid email address"
  const PasswordRequired := "Password is required"
  const PasswordTooShort := "Password must be at least 8 characters long"

  /** The email field's error: required first, then the shape. */
  function EmailError(email: string): (r: Option<string>)
    ensures r == Some(EmailRequired) <==> email == ""
    ensures r == Some(EmailInvalid) <==> email != "" && !ValidEmail(email)
    ensures r == None <==> ValidEmail(email)
  {
    if email == "" then Some(EmailRequired)
    else if !ValidEmail(email) then Some(EmailInvalid)
    else None
  }

  /** The password field's error: required first, then the length. */
  function PasswordError(password: string): (r: Option<string>)
    ensures r == Some(PasswordRequired) <==> password == ""
    ensures r == Some(PasswordTooShort) <==> password != "" && !ValidPassword(password)
    ensures r == None <==> ValidPassword(password)
  {
    if password == "" then Some(PasswordRequired)
    else if !ValidPassword(password) then Some(PasswordTooShort)
    else None
  }
}
