/**
 * The password rules both account pages apply, the checklist they show
 * under the password field, and the call a submit reaches.
 */
module Credentials {
  import opened Wrappers

  predicate IsUpper(c: char) { 'A' <= c <= 'Z' }
  predicate IsLower(c: char) { 'a' <= c <= 'z' }
  predicate IsDigit(c: char) { '0' <= c <= '9' }

  /** `password.length >= 6`. */
  predicate HasMinLength(p: string) { |p| >= 6 }
  /** `/[A-Z]/.test(password)`. */
  predicate HasUpperCase(p: string) { exists i :: 0 <= i < |p| && IsUpper(p[i]) }
  /** `/[a-z]/.test(password)`. */
  predicate HasLowerCase(p: string) { exists i :: 0 <= i < |p| && IsLower(p[i]) }
  /** `/[0-9]/.test(password)`. */
  predicate HasNumber(p: string) { exists i :: 0 <= i < |p| && IsDigit(p[i]) }

  /** `isPasswordValid`: all four rules at once. */
  predicate PasswordValid(p: string)
  {
    HasMinLength(p) && HasUpperCase(p) && HasLowerCase(p) && HasNumber(p)
  }

  /** Appending characters never breaks a rule that held. */
  lemma AppendKeepsValid(p: string, q: string)
    requires PasswordValid(p)
    ensures PasswordValid(p + q)
  {
    var u :| 0 <= u < |p| && IsUpper(p[u]);
    assert (p + q)[u] == p[u];
    var l :| 0 <= l < |p| && IsLower(p[l]);
    assert (p + q)[l] == p[l];
    var d :| 0 <= d < |p| && IsDigit(p[d]);
    assert (p + q)[d] == p[d];
  }

  /** A character is upper, lower or digit for at most one of the three tests. */
  lemma ClassesDisjoint(c: char)
    ensures !(IsUpper(c) && IsLower(c)) && !(IsUpper(c) && IsDigit(c)) && !(IsLower(c) && IsDigit(c))
  {
  }

  /** A valid password holds three different characters, one of each class. */
  lemma ValidHasThreeKinds(p: string)
    requires PasswordValid(p)
    ensures exists u, l, d :: 0 <= u < |p| && 0 <= l < |p| && 0 <= d < |p|
                              && u != l && l != d && u != d && IsUpper(p[u]) && IsLower(p[l]) && IsDigit(p[d])
  {
    var u :| 0 <= u < |p| && IsUpper(p[u]);
    var l :| 0 <= l < |p| && IsLower(p[l]);
    var d :| 0 <= d < |p| && IsDigit(p[d]);
    ClassesDisjoint(p[u]);
    ClassesDisjoint(p[l]);
  }

  /** One line of the checklist shown under the password field. */
  datatype Requirement = Requirement(met: bool, text: string)

  /** The checklist, in the order both pages show it. */
  function Checklist(p: string): (r: seq<Requirement>)
    ensures |r| == 4
    ensures PasswordValid(p) <==> forall i :: 0 <= i < |r| ==> r[i].met
  {
    var r := [
      Requirement(HasMinLength(p), "At least 6 characters"),
      Requirement(HasUpperCase(p), "One uppercase letter"),
      Requirement(HasLowerCase(p), "One lowercase letter"),
      Requirement(HasNumber(p), "One number")];
    assert r[0].met && r[1].met && r[2].met && r[3].met ==> PasswordValid(p);
    r
  }

  /** "Please ensure your password meets all requirements", written word by word. */
  const RequirementsMessage :=
    "Please" + " " + "ensure" + " " + "your" + " " + "password" + " " + "meets" + " " + "all" + " " + "requirements"
  const DefaultError := "An error occurred"

  /** The authentication call a submit reaches, if any. */
  datatype AuthCall = NoCall | SignIn(email: string, password: string) | SignUp(email: string, password: string)

  /** A text without the character `c` contains no text that has it. */
  lemma AbsentChar(s: string, sub: string, c: char)
    requires c in sub && c !in s
    ensures !Contains(s, sub)
  {
  }

  /** A text containing `sub` contains every piece of `sub`. */
  lemma ContainsPiece(s: string, sub: string, a: nat, b: nat)
    requires Contains(s, sub) && a <= b <= |sub|
    ensures Contains(s, sub[a..b])
  {
    var i: nat :| i <= |s| && OccursAt(s, sub, i);
    assert sub[a..b] == s[i + a..i + b] by {
      forall k | 0 <= k < b - a ensures sub[a..b][k] == s[i + a..i + b][k] {
        assert sub[a + k] == s[i..i + |sub|][a + k];
      }
    }
    assert OccursAt(s, sub[a..b], i + a);
  }

  /** An occurrence cannot straddle a character the searched text does not have. */
  lemma SplitOnAbsent(a: string, c: char, b: string, sub: string)
    requires c !in sub && !Contains(a, sub) && !Contains(b, sub)
    ensures !Contains(a + [c] + b, sub)
  {
    var s := a + [c] + b;
    forall i: nat | i <= |s| ensures !OccursAt(s, sub, i) {
      if i + |sub| <= |a| {
        assert s[i..i + |sub|] == a[i..i + |sub|];
        assert !OccursAt(a, sub, i);
      } else if i > |a| && i + |sub| <= |s| {
        var j := i - |a| - 1;
        assert s[i..i + |sub|] == b[j..j + |sub|];
        assert !OccursAt(b, sub, j);
      } else if i + |sub| <= |s| {
        assert s[i..i + |sub|][|a| - i] == c;
      }
    }
  }

  /** The words of the requirements message. */
  predicate NoWordContains(sub: string)
  {
    && !Contains("Please", sub) && !Contains("ensure", sub) && !Contains("your", sub)
    && !Contains("password", sub) && !Contains("meets", sub) && !Contains("all", sub)
    && !Contains("requirements", sub)
  }

  /** A text without spaces that no word of the requirements message holds is not in the message. */
  lemma RequirementsMessageLacks(sub: string)
    requires NoWordContains(sub) && ' ' !in sub
    ensures !Contains(RequirementsMessage, sub)
  {
    SplitOnAbsent("Please", ' ', "ensure", sub);
    var m := "Please" + " " + "ensure";
    SplitOnAbsent(m, ' ', "your", sub);
    m := m + " " + "your";
    SplitOnAbsent(m, ' ', "password", sub);
    m := m + " " + "password";
    SplitOnAbsent(m, ' ', "meets", sub);
    m := m + " " + "meets";
    SplitOnAbsent(m, ' ', "all", sub);
    m := m + " " + "all";
    SplitOnAbsent(m, ' ', "requirements", sub);
  }

  /** The requirements message mentions no 'email': each of its words is too short or lacks a letter. */
  lemma RequirementsMessageHasNoEmail()
    ensures !Contains(RequirementsMessage, "email")
  {
    AbsentChar("Please", "email", 'm');
    AbsentChar("ensure", "email", 'm');
    AbsentChar("password", "email", 'm');
    AbsentChar("meets", "email", 'a');
    AbsentChar("requirements", "email", 'a');
    RequirementsMessageLacks("email");
  }

  /** Nor 'invalid_credentials', which is longer than any of its words. */
  lemma RequirementsMessageHasNoCredentialsCode()
    ensures !Contains(RequirementsMessage, "invalid_credentials")
  {
    assert NoWordContains("invalid_credentials");
    RequirementsMessageLacks("invalid_credentials");
  }
}
