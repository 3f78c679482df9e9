/** The validation rules of the signup form as pure functions of the field values:
    the full-name rule chain, the email check, the five password requirements and
    their conjunction, the confirm-password check and the verdict of a submit. */
module Rules {
  import opened Text

  /** What one single-error check decides: pass or fail, and the error text it shows. */
  datatype Verdict = Verdict(ok: bool, message: string)

  const FULL_NAME_REQUIRED := "Full Name is required"
  const NAME_TOO_SHORT := "Name must be at least 3 characters"
  const NEED_FIRST_AND_LAST := "Please enter both first and last name"
  const NAME_HAS_NUMBER := "Name cannot contain numbers"
  const EMAIL_REQUIRED := "Email is required"
  const EMAIL_MALFORMED := "Enter a valid email address"
  const CONFIRM_REQUIRED := "Please confirm your password"
  const PASSWORDS_DIFFER := "Passwords do not match"

  /** The characters hasSpecial accepts; backslash, backtick and tilde are not among them. */
  const SPECIAL_CHARS := "!@#$%^&*()_+-=[]{}|;':\",./<>?"

  /** A check that fails shows why; a passing check shows no text. */
  predicate WellFormed(v: Verdict) {
    v.ok <==> v.message == ""
  }

  predicate IsDigit(c: char) { '0' <= c <= '9' }

  /** Some character is a decimal digit: the specification of hasNumber. */
  predicate HasDigit(s: string) {
    exists i :: 0 <= i < |s| && IsDigit(s[i])
  }

  predicate IsSpecial(c: char) { c in SPECIAL_CHARS }

  /** Some character is in the special set: the specification of hasSpecial. */
  predicate HasSpecialChar(s: string) {
    exists i :: 0 <= i < |s| && IsSpecial(s[i])
  }

  /** hasUppercase: lower-casing the text changes it. */
  predicate HasUppercase(s: string) {
    ToLower(s) != s
  }

  /** hasLowercase: upper-casing the text changes it. */
  predicate HasLowercase(s: string) {
    ToUpper(s) != s
  }

  /** Lower-casing changes a string exactly when it holds an upper-case letter. */
  lemma HasUppercaseIff(s: string)
    ensures HasUppercase(s) <==> exists i :: 0 <= i < |s| && IsAsciiUpper(s[i])
  {
    var r := ToLower(s);
    if r != s {
      var i :| 0 <= i < |s| && r[i] != s[i];
      assert IsAsciiUpper(s[i]);
    }
    if exists i :: 0 <= i < |s| && IsAsciiUpper(s[i]) {
      var i :| 0 <= i < |s| && IsAsciiUpper(s[i]);
      assert r[i] != s[i];
    }
  }

  /** Upper-casing changes a string exactly when it holds a lower-case letter. */
  lemma HasLowercaseIff(s: string)
    ensures HasLowercase(s) <==> exists i :: 0 <= i < |s| && IsAsciiLower(s[i])
  {
    var r := ToUpper(s);
    if r != s {
      var i :| 0 <= i < |s| && r[i] != s[i];
      assert IsAsciiLower(s[i]);
    }
    if exists i :: 0 <= i < |s| && IsAsciiLower(s[i]) {
      var i :| 0 <= i < |s| && IsAsciiLower(s[i]);
      assert r[i] != s[i];
    }
  }

  /** The five password requirements, each with its own indicator on the page. */
  datatype Requirement = MinLength | Uppercase | Lowercase | Number | Special

  predicate Meets(r: Requirement, password: string) {
    match r
    case MinLength => |password| >= 8
    case Uppercase => HasUppercase(password)
    case Lowercase => HasLowercase(password)
    case Number => HasDigit(password)
    case Special => HasSpecialChar(password)
  }

  /** The overall password verdict of checkPassword. */
  predicate Strong(password: string) {
    |password| >= 8 && HasUppercase(password) && HasLowercase(password)
    && HasDigit(password) && HasSpecialChar(password)
  }

  /** The verdict is the conjunction of the five requirements, no more and no less. */
  lemma StrongIffAllMet(password: string)
    ensures Strong(password) <==> forall r :: Meets(r, password)
  {
    if !Strong(password) {
      assert !Meets(MinLength, password) || !Meets(Uppercase, password)
        || !Meets(Lowercase, password) || !Meets(Number, password)
        || !Meets(Special, password);
    }
  }

  /** The verdict stated character by character. */
  lemma StrongIff(password: string)
    ensures Strong(password) <==>
      |password| >= 8
      && (exists i :: 0 <= i < |password| && IsAsciiUpper(password[i]))
      && (exists i :: 0 <= i < |password| && IsAsciiLower(password[i]))
      && (exists i :: 0 <= i < |password| && IsDigit(password[i]))
      && (exists i :: 0 <= i < |password| && IsSpecial(password[i]))
  {
    HasUppercaseIff(password);
    HasLowercaseIff(password);
  }

  /** checkFullName: the trimmed name against four rules, the first failing rule deciding. */
  function FullName(raw: string): (v: Verdict)
    ensures WellFormed(v)
  {
    var value := Trim(raw);
    if value == "" then Verdict(false, FULL_NAME_REQUIRED)
    else if |value| < 3 then Verdict(false, NAME_TOO_SHORT)
    else if |Words(value)| < 2 then Verdict(false, NEED_FIRST_AND_LAST)
    else if HasDigit(value) then Verdict(false, NAME_HAS_NUMBER)
    else Verdict(true, "")
  }

  /** Trimming never adds or removes a digit. */
  lemma HasDigitTrim(s: string)
    ensures HasDigit(Trim(s)) <==> HasDigit(s)
  {
    TrimSpec(s);
    var t, i := Trim(s), LeadingWhitespace(s);
    if HasDigit(s) {
      var k :| 0 <= k < |s| && IsDigit(s[k]);
      assert i <= k < i + |t|;
      assert IsDigit(t[k - i]);
    }
    if HasDigit(t) {
      var k :| 0 <= k < |t| && IsDigit(t[k]);
      assert IsDigit(s[i + k]);
    }
  }

  /** Each message of the name chain appears exactly when every earlier rule passed
      and its own rule failed. */
  lemma FullNameRuleOrder(raw: string)
    ensures var v, t := FullName(raw), Trim(raw);
      && (v.message == FULL_NAME_REQUIRED <==> AllWhitespace(raw))
      && (v.message == NAME_TOO_SHORT <==> !AllWhitespace(raw) && |t| < 3)
      && (v.message == NEED_FIRST_AND_LAST <==> |t| >= 3 && !HasInnerSpace(t))
      && (v.message == NAME_HAS_NUMBER <==> HasInnerSpace(t) && HasDigit(raw))
      && (v.ok <==> HasInnerSpace(t) && !HasDigit(raw))
  {
    var t := Trim(raw);
    TrimEmptyIff(raw);
    TwoWordsIff(t);
    HasDigitTrim(raw);
    if HasInnerSpace(t) {
      InnerSpaceLength(t);
    }
  }

  /** Whitespace around a name changes nothing: only the trimmed value is checked. */
  lemma FullNameIgnoresPadding(before: string, name: string, after: string)
    requires AllWhitespace(before) && AllWhitespace(after)
    requires name != [] && !IsWhitespace(name[0]) && !IsWhitespace(name[|name| - 1])
    ensures FullName(before + name + after) == FullName(name)
  {
    TrimPadded(before, name, after);
    TrimUnpadded(name);
  }

  /** checkEmail: present after trimming, and holding an `@` and a `.` somewhere. */
  function Email(raw: string): (v: Verdict)
    ensures WellFormed(v)
  {
    var value := Trim(raw);
    if value == "" then Verdict(false, EMAIL_REQUIRED)
    else if IndexOf(value, '@') == -1 || IndexOf(value, '.') == -1 then Verdict(false, EMAIL_MALFORMED)
    else Verdict(true, "")
  }

  /** The email check in terms of the raw value: both characters anywhere, in any order. */
  lemma EmailIff(raw: string)
    ensures var v := Email(raw);
      && (v.ok <==> '@' in raw && '.' in raw)
      && (v.message == EMAIL_REQUIRED <==> AllWhitespace(raw))
      && (v.message == EMAIL_MALFORMED <==> !AllWhitespace(raw) && ('@' !in raw || '.' !in raw))
  {
    TrimEmptyIff(raw);
    TrimKeeps(raw, '@');
    TrimKeeps(raw, '.');
  }

  /** The check is deliberately weak: neither the order of `@` and `.` nor what
      surrounds them matters. */
  lemma EmailOrderIrrelevant(x: string, y: string, z: string)
    ensures Email(x + "@" + y + "." + z).ok
    ensures Email(x + "." + y + "@" + z).ok
  {
    var a, b := x + "@" + y + "." + z, x + "." + y + "@" + z;
    assert a[|x|] == '@' && a[|x| + 1 + |y|] == '.';
    assert b[|x|] == '.' && b[|x| + 1 + |y|] == '@';
    EmailIff(a);
    EmailIff(b);
  }

  /** checkConfirmPassword: present, and equal to the password character for character. */
  function Confirm(password: string, confirm: string): (v: Verdict)
    ensures WellFormed(v)
    ensures v.ok <==> password == confirm && password != ""
    ensures v.message == CONFIRM_REQUIRED <==> confirm == ""
    ensures v.message == PASSWORDS_DIFFER <==> confirm != "" && password != confirm
  {
    if confirm == "" then Verdict(false, CONFIRM_REQUIRED)
    else if password != confirm then Verdict(false, PASSWORDS_DIFFER)
    else Verdict(true, "")
  }

  /** The conjunction the submit handler branches on. */
  predicate Accepted(fullname: string, email: string, password: string, confirm: string) {
    FullName(fullname).ok && Email(email).ok && Strong(password) && Confirm(password, confirm).ok
  }

  /** A submit is accepted exactly when the name has two words and no digit, the email
      holds `@` and `.`, the password is strong and the confirmation repeats it. */
  lemma AcceptedIff(fullname: string, email: string, password: string, confirm: string)
    ensures Accepted(fullname, email, password, confirm) <==>
      HasInnerSpace(Trim(fullname)) && !HasDigit(fullname)
      && '@' in email && '.' in email
      && Strong(password) && confirm == password
  {
    FullNameRuleOrder(fullname);
    EmailIff(email);
  }
}
