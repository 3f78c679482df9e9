/** The rules applied to a few sample inputs, one lemma per case. */
module Scenarios {
  import opened Text
  import opened Rules

  lemma NameEmpty()
    ensures FullName("") == Verdict(false, FULL_NAME_REQUIRED)
  {
  }

  lemma NameShort()
    ensures FullName("Al") == Verdict(false, NAME_TOO_SHORT)
  {
    TrimUnpadded("Al");
  }

  lemma NameSingleWord()
    ensures FullName("Madonna") == Verdict(false, NEED_FIRST_AND_LAST)
  {
    TrimUnpadded("Madonna");
    assert ' ' !in "Madonna";
    FullNameRuleOrder("Madonna");
  }

  lemma NameWithDigit()
    ensures FullName("John 2Smith") == Verdict(false, NAME_HAS_NUMBER)
  {
    var s := "John 2Smith";
    TrimUnpadded(s);
    assert s[0] != ' ' && s[4] == ' ' && s[5] != ' ';
    assert IsDigit(s[5]);
    FullNameRuleOrder(s);
  }

  lemma EmailWithoutAt()
    ensures Email("a.b") == Verdict(false, EMAIL_MALFORMED)
  {
    EmailIff("a.b");
  }

  lemma EmailWithoutDot()
    ensures Email("a@b") == Verdict(false, EMAIL_MALFORMED)
  {
    EmailIff("a@b");
  }

  lemma EmailSample()
    ensures Email("a@b.com").ok
  {
    var s := "a@b.com";
    assert s[1] == '@' && s[3] == '.';
    EmailIff(s);
  }

  lemma PasswordStrongSample()
    ensures Strong("Password1!")
  {
    var good := "Password1!";
    StrongIff(good);
    assert IsAsciiUpper(good[0]) && IsAsciiLower(good[1]) && IsDigit(good[8]) && IsSpecial(good[9]);
  }

  /** No ASCII letter and no space is a digit or a special character. */
  lemma LetterOrSpaceNotSpecial(c: char)
    requires IsAsciiUpper(c) || IsAsciiLower(c) || c == ' '
    ensures !IsDigit(c) && !IsSpecial(c)
  {
    assert forall i :: 0 <= i < |SPECIAL_CHARS| ==> SPECIAL_CHARS[i] != c;
  }

  /** The words of the valid name sample, without its padding. */
  lemma JohnSmith(name: string)
    requires name == "John   Smith"
    ensures Trim(name) == name && HasInnerSpace(name) && !HasDigit(name)
  {
    assert name[0] != ' ' && name[4] == ' ' && name[7] != ' ';
    forall k | 0 <= k < |name| ensures !IsDigit(name[k]) {
      LetterOrSpaceNotSpecial(name[k]);
    }
    TrimUnpadded(name);
  }

  /** The valid name sample is two spaces, the unpadded name and two spaces. */
  lemma JohnSmithPadded(raw: string)
    requires raw == "  John   Smith  "
    ensures raw == "  " + raw[2..14] + "  " && raw[2..14] == "John   Smith"
  {
  }

  /** The sample of a valid name: two words, padded and separated by several spaces. */
  lemma NameFullSample(raw: string)
    requires raw == "  John   Smith  "
    ensures FullName(raw) == Verdict(true, "")
  {
    JohnSmithPadded(raw);
    var name := raw[2..14];
    JohnSmith(name);
    FullNameRuleOrder(name);
    FullNameIgnoresPadding("  ", name, "  ");
  }

  /** "password" is long enough and has lower-case letters, and fails the other three. */
  lemma PasswordWeakSample()
    ensures Meets(MinLength, "password") && Meets(Lowercase, "password")
    ensures !Meets(Uppercase, "password") && !Meets(Number, "password") && !Meets(Special, "password")
    ensures !Strong("password")
  {
    var weak := "password";
    StrongIff(weak);
    HasUppercaseIff(weak);
    HasLowercaseIff(weak);
    assert IsAsciiLower(weak[0]);
    forall k | 0 <= k < |weak| ensures IsAsciiLower(weak[k]) && !IsDigit(weak[k]) && !IsSpecial(weak[k]) {
      LetterOrSpaceNotSpecial(weak[k]);
    }
  }

  lemma ConfirmCases()
    ensures Confirm("Abc123!@", "Abc123!@") == Verdict(true, "")
    ensures Confirm("Abc123!@", "abc123!@") == Verdict(false, PASSWORDS_DIFFER)
    ensures Confirm("Abc123!@", "") == Verdict(false, CONFIRM_REQUIRED)
  {
    assert "Abc123!@"[0] != "abc123!@"[0];
  }
}
