# Signup form validation, modelled in Dafny

This project models `form.js`, the client-side validation of a four-field signup form
(full name, email, password, confirm password). It has four parts:

- `Text` (`text.dfy`) covers the JavaScript string operations the rules use:
  - `trim`, using the full ECMAScript WhiteSpace/LineTerminator set;
  - `split(' ')` followed by `filter(part => part !== '')`;
  - `indexOf` for one character;
  - `toLowerCase`/`toUpperCase`, restricted to ASCII letters.
- `Rules` (`rules.dfy`) covers the validation rules as pure functions of the input values:
  - the full-name rule chain;
  - the weak email check;
  - the five password requirements and their conjunction;
  - the confirm-password check;
  - the verdict of a submit.

  Each single-error check returns a `Verdict`. Its message is empty exactly when the
  check passes (`WellFormed`).
- `Form` (`form.dfy`) covers the imperative part:
  - the loop helpers `hasNumber` (a `while` loop) and `hasSpecial` (a `for ... of` loop),
    each proved equal to an existential predicate;
  - the class `SignupForm`, whose fields are what the page shows: each field's error
    text and input class, the five requirement indicators (text class and optional
    checkbox class), and the form message.

  Its methods are the check handlers, the password-input handler and the submit handler.
  Each one states its whole new state in terms of the `Rules` functions. Each handler
  receives the current input values as parameters, because it only reads them.
- `Scenarios` (`scenarios.dfy`) evaluates the rules on sample inputs.

The main results:

- The full-name messages come out in rule order: each message appears exactly when its
  own condition holds and every earlier one passed (`FullNameRuleOrder`).
- The email check accepts any value holding an `@` and a `.` in any order
  (`EmailIff`, `EmailOrderIrrelevant`).
- Every indicator is refreshed from its own requirement, even when an earlier requirement
  fails, and the overall password verdict is the conjunction of all five requirements
  (`CheckPassword`, `StrongIffAllMet`).
- A failing password check leaves the password error text as it was (`PasswordShown`).
- The confirmation is compared exactly, with no case folding (`Confirm`, `ConfirmCases`).
- On a password edit, the confirmation is re-checked only when it is non-empty
  (`OnPasswordInput`).
- A submit runs all four checks and is accepted exactly when all four pass
  (`Submit`, `AcceptedIff`).

A consequence worth noting: a trimmed name with two words always has at least three
characters (`InnerSpaceLength`). So the length rule only changes which message a one- or
two-character name gets, never the verdict.

## Model

| member | source | states |
|---|---|---|
| Text.LeadingWhitespace | form.js:42 | the longest whitespace prefix: everything before it is whitespace, the next character is not |
| Text.TrailingWhitespace | form.js:42 | the longest whitespace suffix: everything after it is whitespace, the character before it is not |
| Text.IsWhitespace | form.js:42 | the code points `trim` removes: ECMAScript's WhiteSpace and LineTerminator characters |
| Text.Trim | form.js:42 | the trimmed value is no longer than the input and neither starts nor ends with whitespace |
| Text.TrimSpec | form.js:42 | trim returns a contiguous slice of the input, and everything cut off either side is whitespace |
| Text.TrimEmptyIff | form.js:42-43 | the trimmed value is empty exactly when the input is all whitespace |
| Text.TrimKeeps | form.js:81-88 | trimming neither removes nor adds any non-whitespace character |
| Text.TrimUnpadded | form.js:42 | a value with no whitespace at either end is unchanged by trim |
| Text.TrimPadded | form.js:42 | whitespace-only padding around an unpadded value is removed exactly |
| Text.TrimIdempotent | form.js:42 | trimming twice is the same as trimming once |
| Text.LowerChar | form.js:106 | a character changes under lower-casing exactly when it is an upper-case letter, and then becomes lower-case |
| Text.UpperChar | form.js:116 | a character changes under upper-casing exactly when it is a lower-case letter, and then becomes upper-case |
| Text.ToLower | form.js:106 | `toLowerCase` as a character-by-character map through LowerChar |
| Text.ToUpper | form.js:116 | `toUpperCase` as a character-by-character map through UpperChar |
| Text.Split | form.js:55 | split yields at least one piece, no piece contains the separator, and the first piece is non-empty exactly when the string does not start with the separator |
| Text.SplitJoin | form.js:55 | joining the pieces of a split with the separator gives back the original string |
| Text.NonEmptyParts | form.js:55 | a piece is in the filtered list exactly when it is a non-empty piece of the input, and the list never grows |
| Text.NonEmptyPartsConcat | form.js:55 | the filter keeps the order of the pieces: filtering a concatenation is concatenating the filtered lists |
| Text.NonEmptyPartsCount | form.js:55 | the filter keeps each non-empty piece as many times as it occurs (so "John John" has two words) and drops every empty one |
| Text.Words | form.js:55 | the words of a value: `split(' ')` followed by the filter that drops empty pieces |
| Text.WordsStep | form.js:55 | how the word count changes when one leading character is added |
| Text.OneWordIff | form.js:55 | there is at least one word exactly when some character is not a space |
| Text.TwoWordsIff | form.js:55-56 | there are at least two words exactly when a space has a non-space character somewhere before it and another somewhere after it |
| Text.InnerSpaceLength | form.js:49-56 | a value with two words has at least three characters |
| Text.IndexOf | form.js:88 | indexOf returns -1 exactly when the character is absent, otherwise the position of its first occurrence |
| Rules.HasUppercase | form.js:105-112 | hasUppercase: lower-casing the value changes it |
| Rules.HasLowercase | form.js:115-122 | hasLowercase: upper-casing the value changes it |
| Rules.HasUppercaseIff | form.js:105-112 | hasUppercase holds exactly when some character is an upper-case letter |
| Rules.HasLowercaseIff | form.js:115-122 | hasLowercase holds exactly when some character is a lower-case letter |
| Rules.Strong | form.js:187-191 | the overall password verdict: length at least 8, and hasUppercase, hasLowercase, hasNumber and hasSpecial all hold |
| Rules.StrongIffAllMet | form.js:166-191 | the password verdict holds exactly when each of the five requirements is met |
| Rules.StrongIff | form.js:187-191 | the password verdict, character by character: length >= 8 plus an upper-case letter, a lower-case letter, a digit and a special character |
| Rules.FullName | form.js:41-73 | a name verdict passes exactly when its message is empty |
| Rules.HasDigitTrim | form.js:42-64 | trimming does not change whether the name holds a digit |
| Rules.FullNameRuleOrder | form.js:41-73 | each of the four messages appears exactly when its rule fails and every earlier rule passed; the verdict passes exactly when the trimmed name has two words and no digit |
| Rules.FullNameIgnoresPadding | form.js:42 | whitespace around a name does not change its verdict |
| Rules.Email | form.js:80-97 | an email verdict passes exactly when its message is empty |
| Rules.EmailIff | form.js:80-97 | "Email is required" exactly for an all-whitespace value, "Enter a valid email address" exactly for the other values missing `@` or `.`, a pass otherwise |
| Rules.EmailOrderIrrelevant | form.js:88 | any value holding `@` and `.`, in either order, passes |
| Rules.Confirm | form.js:208-227 | passes exactly when the confirmation is non-empty and equal to the password; "Please confirm your password" exactly when it is empty; "Passwords do not match" exactly when it is non-empty and differs |
| Rules.Accepted | form.js:249 | the submit condition: the name, email, password and confirm checks all pass |
| Rules.AcceptedIff | form.js:244-249 | a submit is accepted exactly when the trimmed name has two words and no digit, the email holds `@` and `.`, the password is strong and the confirmation equals it |
| Form.HasNumber | form.js:124-134 | the while loop returns true exactly when some character is a decimal digit |
| Form.HasSpecial | form.js:155-163 | the for loop returns true exactly when some character is in the special set |
| Form.Shown | form.js:43-72 | a single-error field shows the verdict's message, with class "valid" exactly when the verdict passes and "invalid" otherwise |
| Form.PasswordShown | form.js:194-201 | the password input gets class "valid" when it passes and "invalid" when it fails; a pass clears the error text and a failure keeps it |
| Form.PasswordShownIdempotent | form.js:194-201 | showing the same password verdict twice leaves the field as showing it once |
| Form.Mark | form.js:22-31 | an updated indicator shows met exactly when it is valid and unmet exactly when it is not; a checkbox is set only where one exists |
| Form.MarkOverwrites | form.js:22-31 | only the last update of an indicator is visible, and repeating an update changes nothing |
| Form.MarkedInTurn | form.js:170-184 | the five updates in source order leave each indicator marked by its own requirement |
| Form.SignupForm.UpdateRequirement | form.js:22-31 | only the named indicator changes, and it becomes Mark of its old state |
| Form.SignupForm.CheckFullName | form.js:41-73 | returns the name verdict; the name field shows it and nothing else changes |
| Form.SignupForm.CheckEmail | form.js:80-97 | returns the email verdict; the email field shows it and nothing else changes |
| Form.SignupForm.CheckPassword | form.js:166-204 | returns whether the password is strong; every indicator shows its own requirement and the password field shows the verdict |
| Form.SignupForm.CheckConfirmPassword | form.js:208-227 | returns the confirm verdict; the confirm field shows it and nothing else changes |
| Form.SignupForm.OnPasswordInput | form.js:233-236 | re-checks the password, and the confirmation only when it is non-empty; otherwise the confirm field is unchanged |
| Form.SignupForm.Submit | form.js:241-258 | all four checks run and every field shows its verdict; returns true and "Form submitted successfully!" exactly when all four pass, and "Please fill in all required fields" otherwise |
| Scenarios.NameEmpty | form.js:43-47 | an empty name gets "Full Name is required" |
| Scenarios.NameShort | form.js:49-53 | "Al" gets "Name must be at least 3 characters" |
| Scenarios.NameSingleWord | form.js:55-60 | "Madonna" gets "Please enter both first and last name" |
| Scenarios.NameWithDigit | form.js:64-68 | "John 2Smith" gets "Name cannot contain numbers" |
| Scenarios.NameFullSample | form.js:41-73 | "  John   Smith  " passes: padding is trimmed and the repeated spaces give two words |
| Scenarios.EmailWithoutAt | form.js:88-92 | "a.b" gets "Enter a valid email address" |
| Scenarios.EmailWithoutDot | form.js:88-92 | "a@b" gets "Enter a valid email address" |
| Scenarios.EmailSample | form.js:80-97 | "a@b.com" passes |
| Scenarios.PasswordStrongSample | form.js:187-191 | "Password1!" is strong |
| Scenarios.PasswordWeakSample | form.js:170-191 | "password" meets the length and lower-case requirements, fails the upper-case, number and special requirements, and is not strong |
| Scenarios.ConfirmCases | form.js:212-226 | an identical confirmation passes, one differing only in case gets "Passwords do not match", and an empty one gets "Please confirm your password" |

## Left out

- Element lookups (form.js:1-19): the page's elements become the fields of `SignupForm`, and the input values become handler parameters.
- Event registration (form.js:229-241), the `if (element)` null guards and `e.preventDefault()`: they are browser plumbing. The behaviour of each listener is modelled as the corresponding method.
- `formMsg.style.color` (form.js:252, 256): presentation only.
- The commented-out `form.submit()` (form.js:253) and the commented-out second `hasNumber` (form.js:145-152): they are dead code.
- The show/hide password toggle (form.js:261-287): it changes only an input's type attribute and an icon, and no validation depends on it.
- Form.SignupForm.constructor: the initial content of the page (its HTML) is not part of this model, so the constructor chooses blank fields, the class "req", and a checkbox before each requirement named in `withCheckbox`.
- Text.ToLower: lower-cases ASCII letters only. JavaScript's `toLowerCase` applies full Unicode case mapping, so `hasUppercase` on non-ASCII upper-case letters (for example "É") is not modelled.
- Text.ToUpper: upper-cases ASCII letters only, so `hasLowercase` on non-ASCII lower-case letters is not modelled.
- Text.IsWhitespace: the whitespace set of `trim` is U+0009–U+000D, U+0020, U+00A0, U+1680, U+2000–U+200A, U+2028, U+2029, U+202F, U+205F, U+3000 and U+FEFF (ECMAScript's WhiteSpace and LineTerminator code points). A later Unicode version that adds another space separator is not followed.
- Rules.Strong: `length` counts characters as Unicode scalar values. JavaScript counts UTF-16 code units, so a password with characters outside the Basic Multilingual Plane can reach 8 in JavaScript with fewer characters. The same applies to the name length rule in Rules.FullName.
- Input values that contain unpaired UTF-16 surrogates are not modelled: a page string can hold them, but a Dafny `char` cannot.
- Form.Indicator: each indicator's checkbox is taken to be an element of its own (form.js:23). The model does not cover a page where `previousElementSibling` is another indicator, an input or an error element; on such a page one update could overwrite the class of another tracked element.
- Concurrency between handlers is not modelled: each handler runs to completion, as on the browser's event loop.
