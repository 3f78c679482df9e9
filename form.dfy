/** The signup form as the page sees it: the four input values, what each error element
    and input shows, the five requirement indicators and the form message, updated in
    place by the check handlers of form.js. */
module Form {
  import opened Text
  import opened Rules

  const SUBMIT_OK := "Form submitted successfully!"
  const SUBMIT_REJECTED := "Please fill in all required fields"

  /** hasNumber: a scan from the left that stops at the first decimal digit. */
  method HasNumber(text: string) returns (found: bool)
    ensures found == HasDigit(text)
  {
    var i := 0;
    while i < |text|
      invariant 0 <= i <= |text|
      invariant forall k :: 0 <= k < i ==> !IsDigit(text[k])
      decreases |text| - i
    {
      var ch := text[i];
      if '0' <= ch <= '9' {
        return true;
      }
      i := i + 1;
    }
    return false;
  }

  /** hasSpecial: a pass over the characters that stops at the first special one. */
  method HasSpecial(text: string) returns (found: bool)
    ensures found == HasSpecialChar(text)
  {
    for i := 0 to |text|
      invariant forall k :: 0 <= k < i ==> !IsSpecial(text[k])
    {
      if text[i] in SPECIAL_CHARS {
        return true;
      }
    }
    return false;
  }

  /** The text of a field's error element and the class of its input. */
  datatype FieldView = FieldView(error: string, inputClass: string)

  /** The checkbox element just before a requirement's text, when there is one. */
  datatype Checkbox = NoCheckbox | Checkbox(cls: string)

  /** The class of a requirement's text element and its checkbox. */
  datatype Indicator = Indicator(reqClass: string, checkbox: Checkbox)

  /** How a field whose check has a single error text shows a verdict. */
  function Shown(v: Verdict): (f: FieldView)
    ensures f.inputClass == "valid" || f.inputClass == "invalid"
    ensures f.inputClass == "valid" <==> v.ok
    ensures f.error == v.message
  {
    FieldView(v.message, if v.ok then "valid" else "invalid")
  }

  /** How the password field shows its verdict: a pass clears the error text and a
      failure keeps whatever it held. */
  function PasswordShown(before: FieldView, ok: bool): (f: FieldView)
    ensures f.inputClass == "valid" <==> ok
    ensures !ok ==> f.inputClass == "invalid"
    ensures ok ==> f.error == ""
    ensures !ok ==> f.error == before.error
  {
    if ok then FieldView("", "valid") else FieldView(before.error, "invalid")
  }

  /** Reading an indicator back: the requirement shows as met. */
  predicate ShowsMet(ind: Indicator) {
    ind.reqClass == "req ok" && (ind.checkbox.Checkbox? ==> ind.checkbox.cls == "checkbox valid")
  }

  /** Reading an indicator back: the requirement shows as not met. */
  predicate ShowsUnmet(ind: Indicator) {
    ind.reqClass == "req not-ok" && (ind.checkbox.Checkbox? ==> ind.checkbox.cls == "checkbox invalid")
  }

  /** updateRequirement on values: set the text's class, and the checkbox's if there is one. */
  function Mark(ind: Indicator, ok: bool): (r: Indicator)
    ensures r.checkbox.Checkbox? <==> ind.checkbox.Checkbox?
    ensures ShowsMet(r) <==> ok
    ensures ShowsUnmet(r) <==> !ok
  {
    var checkbox := match ind.checkbox
      case NoCheckbox => NoCheckbox
      case Checkbox(_) => Checkbox(if ok then "checkbox valid" else "checkbox invalid");
    Indicator(if ok then "req ok" else "req not-ok", checkbox)
  }

  /** Only the last update of an indicator is visible, so repeating one changes nothing. */
  lemma MarkOverwrites(ind: Indicator, first: bool, second: bool)
    ensures Mark(Mark(ind, first), second) == Mark(ind, second)
    ensures Mark(Mark(ind, first), first) == Mark(ind, first)
  {
  }

  /** Re-running the password check on an unchanged value leaves its field as it was. */
  lemma PasswordShownIdempotent(before: FieldView, ok: bool)
    ensures PasswordShown(PasswordShown(before, ok), ok) == PasswordShown(before, ok)
  {
  }

  /** Five updates, one per requirement, leave every indicator showing its own requirement. */
  lemma MarkedInTurn(before: map<Requirement, Indicator>, password: string, after: map<Requirement, Indicator>)
    requires forall r :: r in before
    requires after ==
      var m1 := before[MinLength := Mark(before[MinLength], |password| >= 8)];
      var m2 := m1[Uppercase := Mark(m1[Uppercase], HasUppercase(password))];
      var m3 := m2[Lowercase := Mark(m2[Lowercase], HasLowercase(password))];
      var m4 := m3[Number := Mark(m3[Number], HasDigit(password))];
      m4[Special := Mark(m4[Special], HasSpecialChar(password))]
    ensures forall r :: after[r] == Mark(before[r], Meets(r, password))
  {
    forall r | true
      ensures after[r] == Mark(before[r], Meets(r, password))
    {
      match r
      case MinLength =>
      case Uppercase =>
      case Lowercase =>
      case Number =>
      case Special =>
    }
  }

  class SignupForm {
    var fullnameView: FieldView
    var emailView: FieldView
    var passwordView: FieldView
    var confirmView: FieldView
    var indicators: map<Requirement, Indicator>
    var formMsg: string

    /** Every requirement has its indicator on the page. */
    ghost predicate Valid()
      reads this
    {
      forall r: Requirement :: r in indicators
    }

    /** A blank form; `withCheckbox` names the requirements whose text has a checkbox before it. */
    constructor (withCheckbox: set<Requirement>)
      ensures Valid()
      ensures fullnameView == emailView == passwordView == confirmView == FieldView("", "")
      ensures forall r :: (indicators[r] ==
        Indicator("req", if r in withCheckbox then Checkbox("checkbox") else NoCheckbox))
      ensures formMsg == ""
    {
      fullnameView, emailView, passwordView, confirmView :=
        FieldView("", ""), FieldView("", ""), FieldView("", ""), FieldView("", "");
      indicators := map r: Requirement ::
        Indicator("req", if r in withCheckbox then Checkbox("checkbox") else NoCheckbox);
      formMsg := "";
    }

    /** updateRequirement: only the indicator of requirement `r` changes. */
    method UpdateRequirement(r: Requirement, isValid: bool)
      requires Valid()
      modifies this`indicators
      ensures Valid()
      ensures indicators == old(indicators)[r := Mark(old(indicators)[r], isValid)]
    {
      var element := indicators[r];
      if isValid {
        var checkbox := if element.checkbox.Checkbox? then Checkbox("checkbox valid") else NoCheckbox;
        element := Indicator("req ok", checkbox);
      } else {
        var checkbox := if element.checkbox.Checkbox? then Checkbox("checkbox invalid") else NoCheckbox;
        element := Indicator("req not-ok", checkbox);
      }
      indicators := indicators[r := element];
    }

    /** checkFullName on the name input's current value `fullname`: its field shows the
        verdict of the rule chain. */
    method CheckFullName(fullname: string) returns (ok: bool)
      modifies this`fullnameView
      ensures ok == FullName(fullname).ok
      ensures fullnameView == Shown(FullName(fullname))
    {
      var value := Trim(fullname);
      if value == "" {
        fullnameView := FieldView(FULL_NAME_REQUIRED, "invalid");
        return false;
      }
      if |value| < 3 {
        fullnameView := FieldView(NAME_TOO_SHORT, "invalid");
        return false;
      }
      var parts := Words(value);
      if |parts| < 2 {
        fullnameView := FieldView(NEED_FIRST_AND_LAST, "invalid");
        return false;
      }
      var digit := HasNumber(value);
      if digit {
        fullnameView := FieldView(NAME_HAS_NUMBER, "invalid");
        return false;
      }
      fullnameView := FieldView("", "valid");
      return true;
    }

    /** checkEmail on the email input's current value: its field shows the verdict of
        the weak format check. */
    method CheckEmail(email: string) returns (ok: bool)
      modifies this`emailView
      ensures ok == Email(email).ok
      ensures emailView == Shown(Email(email))
    {
      var emailValue := Trim(email);
      if emailValue == "" {
        emailView := FieldView(EMAIL_REQUIRED, "invalid");
        return false;
      }
      if IndexOf(emailValue, '@') == -1 || IndexOf(emailValue, '.') == -1 {
        emailView := FieldView(EMAIL_MALFORMED, "invalid");
        return false;
      }
      emailView := FieldView("", "valid");
      return true;
    }

    /** checkPassword on the password input's current value: all five indicators are
        refreshed from their own requirement, then the input shows the overall verdict. */
    method CheckPassword(password: string) returns (isValid: bool)
      requires Valid()
      modifies this`indicators, this`passwordView
      ensures Valid()
      ensures isValid == Strong(password)
      ensures forall r :: indicators[r] == Mark(old(indicators)[r], Meets(r, password))
      ensures passwordView == PasswordShown(old(passwordView), isValid)
    {
      ghost var before := indicators;
      UpdateRequirement(MinLength, |password| >= 8);
      UpdateRequirement(Uppercase, HasUppercase(password));
      UpdateRequirement(Lowercase, HasLowercase(password));
      var isNumberValid := HasNumber(password);
      UpdateRequirement(Number, isNumberValid);
      var isSpecialValid := HasSpecial(password);
      UpdateRequirement(Special, isSpecialValid);
      MarkedInTurn(before, password, indicators);
      isValid := |password| >= 8 && HasUppercase(password)
        && HasLowercase(password) && isNumberValid && isSpecialValid;
      if isValid {
        passwordView := FieldView("", "valid");
      } else {
        passwordView := passwordView.(inputClass := "invalid");
      }
    }

    /** checkConfirmPassword on the current values of both password inputs: the
        confirmation's field shows whether it repeats the password. */
    method CheckConfirmPassword(password: string, confirm: string) returns (ok: bool)
      modifies this`confirmView
      ensures ok == Confirm(password, confirm).ok
      ensures confirmView == Shown(Confirm(password, confirm))
    {
      if confirm == "" {
        confirmView := FieldView(CONFIRM_REQUIRED, "invalid");
        return false;
      }
      if password != confirm {
        confirmView := FieldView(PASSWORDS_DIFFER, "invalid");
        return false;
      }
      confirmView := FieldView("", "valid");
      return true;
    }

    /** The password input handler: re-check the password, and the confirmation too
        unless it is still empty. */
    method OnPasswordInput(password: string, confirm: string)
      requires Valid()
      modifies this`indicators, this`passwordView, this`confirmView
      ensures Valid()
      ensures forall r :: indicators[r] == Mark(old(indicators)[r], Meets(r, password))
      ensures passwordView == PasswordShown(old(passwordView), Strong(password))
      ensures confirmView == if confirm == "" then old(confirmView) else Shown(Confirm(password, confirm))
    {
      var _ := CheckPassword(password);
      if confirm != "" {
        var _ := CheckConfirmPassword(password, confirm);
      }
    }

    /** The submit handler: all four checks run, whatever the earlier ones decided,
        and the form message tells whether all of them passed. */
    method Submit(fullname: string, email: string, password: string, confirm: string)
      returns (accepted: bool)
      requires Valid()
      modifies this`fullnameView, this`emailView, this`indicators, this`passwordView
      modifies this`confirmView, this`formMsg
      ensures Valid()
      ensures accepted == Accepted(fullname, email, password, confirm)
      ensures formMsg == if accepted then SUBMIT_OK else SUBMIT_REJECTED
      ensures fullnameView == Shown(FullName(fullname))
      ensures emailView == Shown(Email(email))
      ensures forall r :: indicators[r] == Mark(old(indicators)[r], Meets(r, password))
      ensures passwordView == PasswordShown(old(passwordView), Strong(password))
      ensures confirmView == Shown(Confirm(password, confirm))
    {
      var isFullnameValid := CheckFullName(fullname);
      var isEmailValid := CheckEmail(email);
      var isPasswordValid := CheckPassword(password);
      var isConfirmValid := CheckConfirmPassword(password, confirm);
      accepted := isFullnameValid && isEmailValid && isPasswordValid && isConfirmValid;
      if accepted {
        formMsg := SUBMIT_OK;
      } else {
        formMsg := SUBMIT_REJECTED;
      }
    }
  }
}
