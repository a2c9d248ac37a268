/** The input validators of app/utils/utils_auth.py. Each returns a verdict and a message;
    the regular expressions are written out as predicates over the characters. */
module Validators {
  import opened Wrappers

  datatype Check = Check(ok: bool, message: string)

  // ----- password -----

  predicate IsUpperLetter(c: char) { 'A' <= c <= 'Z' }
  predicate IsLowerLetter(c: char) { 'a' <= c <= 'z' }
  predicate IsDigit(c: char) { '0' <= c <= '9' }
  /** The character class `[!@#$%^&*(),.?":{}|<>]`. */
  predicate IsSpecial(c: char) { c in "!@#$%^&*(),.?\":{}|<>" }

  /** `re.search` with a one-character class: some character of `s` is in it. */
  function Search(s: string, inClass: char -> bool): (r: bool)
    ensures r <==> exists i :: 0 <= i < |s| && inClass(s[i])
  {
    if s == [] then false
    else inClass(s[0]) || (assert forall i :: 1 <= i < |s| ==> s[i] == s[1..][i - 1]; Search(s[1..], inClass))
  }

  /** The password rules in the order they are checked. */
  datatype Rule = Required | MinLength | Uppercase | Lowercase | Digit | Special

  const PasswordRules: seq<Rule> := [Required, MinLength, Uppercase, Lowercase, Digit, Special]

  predicate Holds(rule: Rule, password: string) {
    match rule
    case Required => password != ""
    case MinLength => |password| >= 8
    case Uppercase => exists i :: 0 <= i < |password| && IsUpperLetter(password[i])
    case Lowercase => exists i :: 0 <= i < |password| && IsLowerLetter(password[i])
    case Digit => exists i :: 0 <= i < |password| && IsDigit(password[i])
    case Special => exists i :: 0 <= i < |password| && IsSpecial(password[i])
  }

  function RuleMessage(rule: Rule): string {
    match rule
    case Required => "Password is required."
    case MinLength => "Password must be at least 8 characters long."
    case Uppercase => "Password must contain uppercase letters."
    case Lowercase => "Password must contain at least one lowercase letter."
    case Digit => "Password must contain at least one digit."
    case Special => "Password must contain at least one special character."
  }

  /** The checks of `validate_password` in their order: the index in `PasswordRules` of the
      first rule the password breaks, or 6 when it breaks none. */
  function FirstBrokenRule(password: string): (k: nat)
    ensures k <= |PasswordRules|
  {
    if password == "" then 0
    else if |password| < 8 then 1
    else if !Search(password, IsUpperLetter) then 2
    else if !Search(password, IsLowerLetter) then 3
    else if !Search(password, IsDigit) then 4
    else if !Search(password, IsSpecial) then 5
    else 6
  }

  /** The check chain stops at the first broken rule, and runs to the end only when every
      rule holds. */
  lemma FirstBrokenRuleIsFirst(password: string)
    ensures FirstBrokenRule(password) < |PasswordRules| ==> FirstBroken(PasswordRules, FirstBrokenRule(password), password)
    ensures FirstBrokenRule(password) == |PasswordRules| ==>
      forall k :: 0 <= k < |PasswordRules| ==> Holds(PasswordRules[k], password)
  {
    RuleChecks(password);
  }

  /** `validate_password`: a password is accepted exactly when every rule holds; otherwise
      the message names the first rule, in checking order, that it breaks. */
  function ValidatePassword(password: string): (r: Check)
    ensures r.ok <==> forall k :: 0 <= k < |PasswordRules| ==> Holds(PasswordRules[k], password)
    ensures r.ok ==> r.message == "Valid password."
    ensures !r.ok ==> (exists k :: 0 <= k < |PasswordRules| && FirstBroken(PasswordRules, k, password)
                                   && r.message == RuleMessage(PasswordRules[k]))
  {
    var k := FirstBrokenRule(password);
    FirstBrokenRuleIsFirst(password);
    if k < |PasswordRules| then Check(false, RuleMessage(PasswordRules[k]))
    else Check(true, "Valid password.")
  }

  /** What each rule, at its place in the checking order, asks of the password. */
  lemma RuleChecks(password: string)
    ensures |PasswordRules| == 6
    ensures Holds(PasswordRules[0], password) <==> password != ""
    ensures Holds(PasswordRules[1], password) <==> |password| >= 8
    ensures Holds(PasswordRules[2], password) <==> Search(password, IsUpperLetter)
    ensures Holds(PasswordRules[3], password) <==> Search(password, IsLowerLetter)
    ensures Holds(PasswordRules[4], password) <==> Search(password, IsDigit)
    ensures Holds(PasswordRules[5], password) <==> Search(password, IsSpecial)
    ensures RuleMessage(PasswordRules[0]) == RuleMessage(Required) && RuleMessage(PasswordRules[1]) == RuleMessage(MinLength)
    ensures RuleMessage(PasswordRules[2]) == RuleMessage(Uppercase) && RuleMessage(PasswordRules[3]) == RuleMessage(Lowercase)
    ensures RuleMessage(PasswordRules[4]) == RuleMessage(Digit) && RuleMessage(PasswordRules[5]) == RuleMessage(Special)
  {
    ClassRule(password, 2, IsUpperLetter);
    ClassRule(password, 3, IsLowerLetter);
    ClassRule(password, 4, IsDigit);
    ClassRule(password, 5, IsSpecial);
  }

  /** The character-class rules: at least one character of the password is in the class. */
  lemma ClassRule(password: string, k: nat, inClass: char -> bool)
    requires 2 <= k < |PasswordRules|
    requires inClass == match PasswordRules[k]
      case Uppercase => IsUpperLetter
      case Lowercase => IsLowerLetter
      case Digit => IsDigit
      case _ => IsSpecial
    ensures Holds(PasswordRules[k], password) <==> Search(password, inClass)
  {
  }

  /** Rule `k` is the first of `rules` that `password` breaks. */
  predicate FirstBroken(rules: seq<Rule>, k: int, password: string)
    requires 0 <= k < |rules|
  {
    !Holds(rules[k], password) && forall m :: 0 <= m < k ==> Holds(rules[m], password)
  }

  /** An accepted password is at least 8 characters long and holds an ASCII upper-case
      letter, a lower-case letter, a digit and a listed special character. */
  lemma AcceptedPasswordIsStrong(password: string)
    requires ValidatePassword(password).ok
    ensures |password| >= 8
    ensures exists i :: 0 <= i < |password| && IsUpperLetter(password[i])
    ensures exists i :: 0 <= i < |password| && IsLowerLetter(password[i])
    ensures exists i :: 0 <= i < |password| && IsDigit(password[i])
    ensures exists i :: 0 <= i < |password| && IsSpecial(password[i])
  {
    assert Holds(PasswordRules[1], password);
    assert Holds(PasswordRules[2], password);
    assert Holds(PasswordRules[3], password);
    assert Holds(PasswordRules[4], password);
    assert Holds(PasswordRules[5], password);
  }

  // ----- email -----

  predicate NoAt(s: string) {
    forall i :: 0 <= i < |s| ==> s[i] != '@'
  }

  /** A match of `[^@]+@[^@]+\.[^@]+` at the start of `s` whose '@' is at `i` and whose
      last '.' is at `j`; the final `[^@]+` needs one character, so only `s[j + 1]` counts. */
  ghost predicate EmailMatchAt(s: string, i: int, j: int) {
    && 0 < i && i + 1 < j && j + 1 < |s|
    && s[i] == '@' && s[j] == '.' && s[j + 1] != '@'
    && NoAt(s[..i]) && NoAt(s[i + 1..j])
  }

  /** `re.match` anchors only at the start: some prefix of `s` has the email shape. */
  ghost predicate EmailPrefixMatches(s: string) {
    exists i, j :: EmailMatchAt(s, i, j)
  }

  /** The index of the first '@' at or after `k`, or `|s|`. */
  function FirstAt(s: string, k: nat): (r: nat)
    requires k <= |s|
    ensures k <= r <= |s|
    ensures r < |s| ==> s[r] == '@'
    ensures forall m :: k <= m < r ==> s[m] != '@'
    decreases |s| - k
  {
    if k == |s| || s[k] == '@' then k else FirstAt(s, k + 1)
  }

  /** Scans the domain part from `k`: a '.' followed by a non-'@' before any '@'. */
  function ScanDomain(s: string, k: nat): bool
    decreases |s| - k
  {
    if k + 1 >= |s| then false
    else if s[k] == '@' then false
    else if s[k] == '.' && s[k + 1] != '@' then true
    else ScanDomain(s, k + 1)
  }

  lemma {:induction false} ScanDomainFinds(s: string, k: nat)
    ensures ScanDomain(s, k) <==>
      exists j :: k <= j && j + 1 < |s| && s[j] == '.' && s[j + 1] != '@' && NoAt(s[k..j])
    decreases |s| - k
  {
    if k + 1 >= |s| {
    } else if s[k] == '@' {
      forall j | k <= j && j + 1 < |s| && s[j] == '.' ensures !NoAt(s[k..j]) {
        assert s[k..j][0] == '@';
      }
    } else if s[k] == '.' && s[k + 1] != '@' {
      assert s[k..k] == [];
    } else {
      ScanDomainFinds(s, k + 1);
      if ScanDomain(s, k + 1) {
        var j :| k + 1 <= j && j + 1 < |s| && s[j] == '.' && s[j + 1] != '@' && NoAt(s[k + 1..j]);
        assert s[k..j] == [s[k]] + s[k + 1..j];
      } else {
        forall j | k <= j && j + 1 < |s| && s[j] == '.' && s[j + 1] != '@' ensures !NoAt(s[k..j]) {
          assert j != k;
          assert !NoAt(s[k + 1..j]);
          assert s[k + 1..j] == s[k..j][1..];
        }
      }
    }
  }

  /** The email shape test: the first '@' is not at the start, the next character is not
      '@', and the rest of the domain scan succeeds. */
  function EmailShaped(s: string): (r: bool)
    ensures r <==> EmailPrefixMatches(s)
  {
    var i := FirstAt(s, 0);
    EmailShapeFromFirstAt(s, i);
    0 < i && i + 2 < |s| && s[i + 1] != '@' && ScanDomain(s, i + 2)
  }

  lemma EmailShapeFromFirstAt(s: string, i: nat)
    requires i == FirstAt(s, 0)
    ensures (0 < i && i + 2 < |s| && s[i + 1] != '@' && ScanDomain(s, i + 2)) <==> EmailPrefixMatches(s)
  {
    if 0 < i && i + 2 < |s| && s[i + 1] != '@' {
      ScanDomainFinds(s, i + 2);
      if ScanDomain(s, i + 2) {
        var j :| i + 2 <= j && j + 1 < |s| && s[j] == '.' && s[j + 1] != '@' && NoAt(s[i + 2..j]);
        assert s[i + 1..j] == [s[i + 1]] + s[i + 2..j];
        assert EmailMatchAt(s, i, j);
      }
    }
    if EmailPrefixMatches(s) {
      var i', j :| EmailMatchAt(s, i', j);
      assert i' == i by {
        assert forall m :: 0 <= m < i' ==> s[..i'][m] == s[m];
      }
      assert s[i + 1] == s[i + 1..j][0];
      assert NoAt(s[i + 2..j]) by {
        assert s[i + 2..j] == s[i + 1..j][1..];
      }
      ScanDomainFinds(s, i + 2);
    }
  }

  /** `validate_email`: empty is refused as missing; otherwise a value is accepted exactly
      when a prefix of it has the email shape (nothing is checked after the match). */
  function ValidateEmail(email: string): (r: Check)
    ensures email == "" ==> r == Check(false, "Email is required.")
    ensures email != "" ==> (r.ok <==> EmailPrefixMatches(email))
    ensures email != "" && !r.ok ==> r.message == "Invalid email format."
    ensures r.ok ==> r.message == "Email is valid."
  {
    if email == "" then Check(false, "Email is required.")
    else if !EmailShaped(email) then Check(false, "Invalid email format.")
    else Check(true, "Email is valid.")
  }

  /** Because only the start is anchored, anything may follow a valid address. */
  lemma EmailSuffixIgnored(email: string, tail: string)
    requires email != "" && ValidateEmail(email).ok
    ensures ValidateEmail(email + tail).ok
  {
    var i, j :| EmailMatchAt(email, i, j);
    var s := email + tail;
    assert s[..i] == email[..i];
    assert s[i + 1..j] == email[i + 1..j];
    assert EmailMatchAt(s, i, j);
  }

  // ----- phone -----

  predicate AllDigits(s: string) {
    forall i :: 0 <= i < |s| ==> IsDigit(s[i])
  }

  /** `s` splits as an optional '+', 7 to 15 ASCII digits, and an optional final newline. */
  ghost predicate PhoneSplit(s: string, sign: string, digits: string, newline: string) {
    && (sign == "" || sign == "+")
    && (newline == "" || newline == "\n")
    && AllDigits(digits) && 7 <= |digits| <= 15
    && s == sign + digits + newline
  }

  /** `re.match(r"^\+?[0-9]{7,15}$", s)`; Python's `$` also matches before a final newline. */
  ghost predicate PhoneMatches(s: string) {
    exists sign, digits, newline :: PhoneSplit(s, sign, digits, newline)
  }

  /** The phone shape test: drop one final newline, then one leading '+', then count digits. */
  function PhoneShaped(s: string): (r: bool)
    ensures r <==> PhoneMatches(s)
  {
    var t := if |s| > 0 && s[|s| - 1] == '\n' then s[..|s| - 1] else s;
    var d := if |t| > 0 && t[0] == '+' then t[1..] else t;
    PhoneShapedMeansSplit(s, t, d);
    7 <= |d| <= 15 && AllDigits(d)
  }

  lemma PhoneShapedMeansSplit(s: string, t: string, d: string)
    requires t == if |s| > 0 && s[|s| - 1] == '\n' then s[..|s| - 1] else s
    requires d == if |t| > 0 && t[0] == '+' then t[1..] else t
    ensures (7 <= |d| <= 15 && AllDigits(d)) <==> PhoneMatches(s)
  {
    if 7 <= |d| <= 15 && AllDigits(d) {
      var sign := if |t| > 0 && t[0] == '+' then "+" else "";
      var newline := if |s| > 0 && s[|s| - 1] == '\n' then "\n" else "";
      assert t == sign + d;
      assert s == t + newline;
      assert PhoneSplit(s, sign, d, newline);
    }
    if PhoneMatches(s) {
      var sign, digits, newline :| PhoneSplit(s, sign, digits, newline);
      SplitIsShape(s, t, d, sign, digits, newline);
    }
  }

  /** Any split of a matching phone number is the one the shape test finds. */
  lemma SplitIsShape(s: string, t: string, d: string, sign: string, digits: string, newline: string)
    requires t == if |s| > 0 && s[|s| - 1] == '\n' then s[..|s| - 1] else s
    requires d == if |t| > 0 && t[0] == '+' then t[1..] else t
    requires PhoneSplit(s, sign, digits, newline)
    ensures d == digits
  {
    var body := sign + digits;
    assert s == body + newline;
    if newline == "\n" {
      assert s[|s| - 1] == '\n';
      assert s[..|s| - 1] == body;
    } else {
      assert s == body;
      assert s[|s| - 1] == digits[|digits| - 1];
    }
    assert t == body;
    if sign == "+" {
      assert t[0] == '+';
      assert t[1..] == digits;
    } else {
      assert t == digits;
      assert t[0] != '+';
    }
  }

  /** `validate_phone`: empty is accepted as optional; otherwise the shape decides. */
  function ValidatePhone(phone: string): (r: Check)
    ensures phone == "" ==> r == Check(true, "Phone number is optional.")
    ensures phone != "" ==> (r.ok <==> PhoneMatches(phone))
    ensures phone != "" && r.ok ==> r.message == "Phone number is valid."
    ensures !r.ok ==> r.message == "Invalid phone number format."
  {
    if phone == "" then Check(true, "Phone number is optional.")
    else if !PhoneShaped(phone) then Check(false, "Invalid phone number format.")
    else Check(true, "Phone number is valid.")
  }

  /** A trailing newline after a valid number is accepted, a second one is not. */
  lemma PhoneTrailingNewline(phone: string)
    requires phone != "" && AllDigits(phone) && 7 <= |phone| <= 15
    ensures ValidatePhone(phone + "\n").ok
    ensures !ValidatePhone(phone + "\n\n").ok
  {
    assert PhoneSplit(phone + "\n", "", phone, "\n");
    var s := phone + "\n\n";
    var t := phone + "\n";
    assert s[..|s| - 1] == t;
    assert t[0] == phone[0];
    assert !IsDigit(t[|t| - 1]);
  }

  // ----- date of birth -----

  /** `validate_date_of_birth`: only the empty value gets a verdict; any other value falls
      off the end of the function and yields `None`. */
  function ValidateDateOfBirth(dateOfBirth: string): (r: Option<Check>)
    ensures r.Some? <==> dateOfBirth == ""
    ensures r.Some? ==> r.value.ok
  {
    if dateOfBirth == "" then Some(Check(true, "Date of birth is optional.")) else None
  }
}
