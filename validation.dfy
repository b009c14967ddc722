/**
 * Input validators of the authentication slice: the password policy, the
 * display-name bound and the e-mail check (the latter delegates to an
 * e-mail syntax library, so it is a parameter here).
 */
module Validation {
  import opened Wrappers
  import opened JsString

  /** The verdict of the password policy: `message` is set exactly when `isValid` is false. */
  datatype PasswordVerdict = PasswordVerdict(isValid: bool, message: Option<string>)

  const PasswordRequired := "Password is required"
  const PasswordTooShort := "Password must be at least 8 characters long"
  const PasswordNeedsLowercase := "Password must contain at least one lowercase letter"
  const PasswordNeedsUppercase := "Password must contain at least one uppercase letter"
  const PasswordNeedsDigit := "Password must contain at least one number"

  const MinPasswordLength := 8
  const MinNameLength := 2
  const MaxNameLength := 50

  /** `/(?=.*[a-z])/.test(p)`: some character is an ASCII lower-case letter. */
  predicate HasLowercase(p: string) {
    exists i :: 0 <= i < |p| && 'a' <= p[i] <= 'z'
  }

  /** `/(?=.*[A-Z])/.test(p)`. */
  predicate HasUppercase(p: string) {
    exists i :: 0 <= i < |p| && 'A' <= p[i] <= 'Z'
  }

  /** `/(?=.*\d)/.test(p)`: `\d` is the ASCII digits. */
  predicate HasDigit(p: string) {
    exists i :: 0 <= i < |p| && '0' <= p[i] <= '9'
  }

  /** What the policy accepts, stated on its own. */
  predicate StrongPassword(p: string) {
    |p| >= MinPasswordLength && HasLowercase(p) && HasUppercase(p) && HasDigit(p)
  }

  /**
   * `validatePassword`: an ordered ladder of checks where the first failing
   * rule decides the message.
   */
  function ValidatePassword(password: string): (v: PasswordVerdict)
    ensures v.isValid <==> StrongPassword(password)
    ensures v.isValid <==> v.message.None?
    ensures password == "" ==> v == PasswordVerdict(false, Some(PasswordRequired))
    ensures 0 < |password| < MinPasswordLength ==> v == PasswordVerdict(false, Some(PasswordTooShort))
  {
    if password == "" then PasswordVerdict(false, Some(PasswordRequired))
    else if |password| < MinPasswordLength then PasswordVerdict(false, Some(PasswordTooShort))
    else if !HasLowercase(password) then PasswordVerdict(false, Some(PasswordNeedsLowercase))
    else if !HasUppercase(password) then PasswordVerdict(false, Some(PasswordNeedsUppercase))
    else if !HasDigit(password) then PasswordVerdict(false, Some(PasswordNeedsDigit))
    else PasswordVerdict(true, None)
  }

  /** The policy's rules, each with its own message, in the order they are checked. */
  datatype PasswordRule = Required | MinLength | Lowercase | Uppercase | Digit

  const PasswordRules: seq<PasswordRule> := [Required, MinLength, Lowercase, Uppercase, Digit]

  predicate Satisfies(p: string, rule: PasswordRule) {
    match rule
    case Required => p != ""
    case MinLength => |p| >= MinPasswordLength
    case Lowercase => HasLowercase(p)
    case Uppercase => HasUppercase(p)
    case Digit => HasDigit(p)
  }

  function RuleMessage(rule: PasswordRule): string {
    match rule
    case Required => PasswordRequired
    case MinLength => PasswordTooShort
    case Lowercase => PasswordNeedsLowercase
    case Uppercase => PasswordNeedsUppercase
    case Digit => PasswordNeedsDigit
  }

  /** The position of the first rule `p` breaks, or `|rules|` when it keeps them all. */
  function FirstBroken(p: string, rules: seq<PasswordRule>): (k: nat)
    ensures k <= |rules|
    ensures forall j :: 0 <= j < k ==> Satisfies(p, rules[j])
    ensures k < |rules| ==> !Satisfies(p, rules[k])
  {
    if rules == [] then 0
    else if !Satisfies(p, rules[0]) then 0
    else 1 + FirstBroken(p, rules[1..])
  }

  /**
   * The ladder is the rule list read in order: the verdict is invalid with the
   * message of the first broken rule, and valid when no rule is broken.
   */
  lemma {:induction false} PasswordFirstBrokenRuleDecides(p: string)
    ensures var k := FirstBroken(p, PasswordRules);
      ValidatePassword(p) ==
        if k < |PasswordRules| then PasswordVerdict(false, Some(RuleMessage(PasswordRules[k])))
        else PasswordVerdict(true, None)
  {
    var k := FirstBroken(p, PasswordRules);
    var rules := PasswordRules;
    assert rules[0] == Required && rules[1] == MinLength && rules[2] == Lowercase;
    assert rules[3] == Uppercase && rules[4] == Digit;
    if k > 0 { assert Satisfies(p, rules[0]); }
    if k > 1 { assert Satisfies(p, rules[1]); }
    if k > 2 { assert Satisfies(p, rules[2]); }
    if k > 3 { assert Satisfies(p, rules[3]); }
    if k > 4 { assert Satisfies(p, rules[4]); }
  }

  /** "abcdefgh" has length and a lower-case letter, so the upper-case rule is the one it breaks. */
  lemma AllLowercaseEightCharsNeedsUppercase()
    ensures ValidatePassword("abcdefgh") == PasswordVerdict(false, Some(PasswordNeedsUppercase))
  {
    assert "abcdefgh"[0] == 'a';
  }

  /** `validateName`: the trimmed name has between 2 and 50 characters. */
  function ValidateName(name: string): (ok: bool)
    ensures ok ==> MinNameLength <= |name| && !AllWhitespace(name)
    ensures Trimmed(name) ==> (ok <==> MinNameLength <= |name| <= MaxNameLength)
  {
    var trimmed := Trim(name);
    MinNameLength <= |trimmed| <= MaxNameLength
  }

  /** Leading or trailing whitespace never changes whether a name is accepted. */
  lemma {:induction false} ValidateNameIgnoresPadding(pre: string, name: string, post: string)
    requires AllWhitespace(pre) && AllWhitespace(post)
    ensures ValidateName(pre + name + post) == ValidateName(name)
  {
    TrimIgnoresPadding(pre, name, post);
  }
}
