/** The profile form's rules, which both edit-profile controllers define
    identically: `validateField` per field name, `validateForm` over the
    required fields and the optional password pair, `hasUnsavedChanges`, the
    `saveProfile` payload, and the two password-visibility toggles. The two
    regular expressions are written out as character-class predicates. */
module ProfileRules {
  import opened Wrappers
  import opened JsText

  /** A character `[^\s@]` matches. */
  predicate Plain(c: char) {
    !IsSpace(c) && c != '@'
  }

  predicate AllPlain(s: string) {
    forall k :: 0 <= k < |s| ==> Plain(s[k])
  }

  /** What `/^[^\s@]+@[^\s@]+\.[^\s@]+$/` accepts: a non-empty local part, `@`,
      a non-empty domain, `.`, a non-empty top-level part, none of them
      holding white space or `@` (the domain and the last part may hold dots). */
  predicate EmailPattern(v: string) {
    exists i, j :: 0 < i && i + 1 < j && j + 1 < |v| && v[i] == '@' && v[j] == '.' &&
      AllPlain(v[..i]) && AllPlain(v[i + 1..j]) && AllPlain(v[j + 1..])
  }

  /** A direct check of the email pattern: split at the first `@` and look
      for a dot strictly inside what follows. */
  function EmailValid(v: string): bool {
    var i := IndexOf(v, '@');
    if i == 0 || i == |v| then false
    else
      var rest := v[i + 1..];
      AllPlain(v[..i]) && AllPlain(rest) && |rest| >= 3 && '.' in rest[1..|rest| - 1]
  }

  /** The check accepts exactly what the regular expression accepts. */
  lemma EmailValidIff(v: string)
    ensures EmailValid(v) <==> EmailPattern(v)
  {
    if EmailValid(v) {
      EmailValidMatches(v);
    }
    if EmailPattern(v) {
      var i, j :| 0 < i && i + 1 < j && j + 1 < |v| && v[i] == '@' && v[j] == '.' &&
        AllPlain(v[..i]) && AllPlain(v[i + 1..j]) && AllPlain(v[j + 1..]);
      PatternIsValid(v, i, j);
    }
  }

  lemma EmailValidMatches(v: string)
    requires EmailValid(v)
    ensures EmailPattern(v)
  {
    var i := IndexOf(v, '@');
    var rest := v[i + 1..];
    var inner := rest[1..|rest| - 1];
    var q :| 0 <= q < |inner| && inner[q] == '.';
    var j := i + 2 + q;
    assert v[i] == '@' && v[j] == '.';
    assert 0 < i && i + 1 < j && j + 1 < |v|;
    var domain, top := v[i + 1..j], v[j + 1..];
    assert AllPlain(domain) by {
      forall k | 0 <= k < |domain| ensures Plain(domain[k]) {
        assert domain[k] == rest[k];
      }
    }
    assert AllPlain(top) by {
      forall k | 0 <= k < |top| ensures Plain(top[k]) {
        assert top[k] == rest[q + 2 + k];
      }
    }
    assert AllPlain(v[..i]);
  }

  lemma PatternIsValid(v: string, i: int, j: int)
    requires 0 < i && i + 1 < j && j + 1 < |v| && v[i] == '@' && v[j] == '.'
    requires AllPlain(v[..i]) && AllPlain(v[i + 1..j]) && AllPlain(v[j + 1..])
    ensures EmailValid(v)
  {
    FirstAt(v, i);
    var rest := v[i + 1..];
    assert forall k :: 0 <= k < |rest| ==> rest[k] == v[i + 1 + k];
    assert forall k :: 0 <= k < |rest| && i + 1 + k != j ==> Plain(rest[k]) by {
      forall k | 0 <= k < |rest| && i + 1 + k != j ensures Plain(rest[k]) {
        if i + 1 + k < j {
          assert rest[k] == v[i + 1..j][k];
        } else {
          assert rest[k] == v[j + 1..][k - (j - i)];
        }
      }
    }
    assert Plain(v[j]);
    assert AllPlain(rest);
    assert rest[1..|rest| - 1][j - i - 2] == '.';
  }

  lemma FirstAt(v: string, i: int)
    requires 0 <= i < |v| && v[i] == '@' && AllPlain(v[..i])
    ensures IndexOf(v, '@') == i
  {
    assert forall k :: 0 <= k < i ==> v[k] == v[..i][k];
  }

  /** Lower-case, upper-case and decimal characters as `[a-z]`, `[A-Z]` and `\d` see them. */
  predicate IsLower(c: char) { 'a' <= c <= 'z' }
  predicate IsUpper(c: char) { 'A' <= c <= 'Z' }

  /** `(?=.*X)` at the start: some character of class X is preceded only by
      characters that `.` matches. */
  predicate LookaheadFinds(v: string, cls: char -> bool) {
    exists k :: 0 <= k < |v| && cls(v[k]) && forall j :: 0 <= j < k ==> !IsLineTerminator(v[j])
  }

  /** What `/^(?=.*[a-z])(?=.*[A-Z])(?=.*\d).+$/` accepts. */
  predicate PasswordPattern(v: string) {
    LookaheadFinds(v, IsLower) && LookaheadFinds(v, IsUpper) && LookaheadFinds(v, IsDigit) &&
    |v| >= 1 && forall k :: 0 <= k < |v| ==> !IsLineTerminator(v[k])
  }

  /** The password pattern asks for one lower-case letter, one upper-case
      letter and one digit, on a single line. */
  lemma PasswordPatternMeaning(v: string)
    ensures PasswordPattern(v) <==>
      (forall k :: 0 <= k < |v| ==> !IsLineTerminator(v[k])) &&
      (exists k :: 0 <= k < |v| && IsLower(v[k])) &&
      (exists k :: 0 <= k < |v| && IsUpper(v[k])) &&
      (exists k :: 0 <= k < |v| && IsDigit(v[k]))
  {
  }

  /** The `name` attribute of a validated field, as `validateField`'s switch
      tells them apart. */
  datatype FieldName = NameField | EmailField | AgeField | PasswordField | ConfirmField | OtherField

  /** `switch (field.name)`: the case a `name` attribute selects. */
  function FieldNamed(s: string): (n: FieldName)
    ensures n == NameField <==> s == "name"
    ensures n == EmailField <==> s == "email"
    ensures n == AgeField <==> s == "age"
    ensures n == PasswordField <==> s == "password"
    ensures n == ConfirmField <==> s == "confirmPassword"
  {
    if s == "name" then NameField
    else if s == "email" then EmailField
    else if s == "age" then AgeField
    else if s == "password" then PasswordField
    else if s == "confirmPassword" then ConfirmField
    else OtherField
  }

  /** What `validateField` decides for one field, and the message it shows. */
  datatype FieldResult = FieldResult(valid: bool, message: string)

  /** The `name` case: required, then 2 to 100 UTF-16 code units. */
  function CheckName(value: string): (r: FieldResult)
    ensures r.valid <==> r.message == ""
    ensures r.valid <==> 2 <= Utf16Length(value) <= 100
  {
    if value == "" then FieldResult(false, "Name is required")
    else if Utf16Length(value) < 2 then FieldResult(false, "Name must be at least 2 characters")
    else if Utf16Length(value) > 100 then FieldResult(false, "Name must be less than 100 characters")
    else FieldResult(true, "")
  }

  /** The `email` case: required, then the email pattern. */
  function CheckEmail(value: string): (r: FieldResult)
    ensures r.valid <==> r.message == ""
    ensures r.valid <==> EmailPattern(value)
  {
    EmailValidIff(value);
    if value == "" then FieldResult(false, "Email is required")
    else if !EmailValid(value) then FieldResult(false, "Please enter a valid email address")
    else FieldResult(true, "")
  }

  /** The `age` case: required, then `parseInt` must give a number in 13..122. */
  function CheckAge(value: string): (r: FieldResult)
    ensures r.valid <==> r.message == ""
    ensures r.valid <==> value != "" && ParseInt(value).Some? && 13 <= ParseInt(value).value <= 122
  {
    var age := ParseInt(value);
    if value == "" then FieldResult(false, "Age is required")
    else if age.None? || age.value < 13 || age.value > 122 then FieldResult(false, "Age must be between 13 and 122")
    else FieldResult(true, "")
  }

  /** The `password` case: empty is fine; otherwise at least 8 UTF-16 code
      units and the password pattern. */
  function CheckPassword(value: string): (r: FieldResult)
    ensures r.valid <==> r.message == ""
    ensures r.valid <==> value == "" || (Utf16Length(value) >= 8 && PasswordPattern(value))
  {
    if value != "" && Utf16Length(value) < 8 then FieldResult(false, "Password must be at least 8 characters")
    else if value != "" && !PasswordPattern(value) then
      FieldResult(false, "Password must contain uppercase, lowercase, and number")
    else FieldResult(true, "")
  }

  /** The `confirmPassword` case: empty is fine; otherwise it must equal the
      raw value of the password input. */
  function CheckConfirm(value: string, passwordRaw: string): (r: FieldResult)
    ensures r.valid <==> r.message == ""
    ensures r.valid <==> value == "" || value == passwordRaw
  {
    if value != "" && value != passwordRaw then FieldResult(false, "Passwords do not match")
    else FieldResult(true, "")
  }

  /** The rule each field's trimmed value must meet: a name of 2 to 100
      UTF-16 code units; an email the pattern accepts; a non-empty age whose
      `parseInt` lies in 13..122; an empty password or one of at least 8
      code units the pattern accepts; an empty confirmation or one equal to
      the raw password. Fields with any other name always pass. */
  predicate FieldRule(name: FieldName, value: string, passwordRaw: string) {
    match name
    case NameField => 2 <= Utf16Length(value) <= 100
    case EmailField => EmailPattern(value)
    case AgeField => value != "" && ParseInt(value).Some? && 13 <= ParseInt(value).value <= 122
    case PasswordField => value == "" || (Utf16Length(value) >= 8 && PasswordPattern(value))
    case ConfirmField => value == "" || value == passwordRaw
    case OtherField => true
  }

  /**
   * `validateField(field)` for a field whose raw value is `raw`;
   * `passwordRaw` is the current value of the `#userPassword` input, which
   * the confirm rule reads. The value is trimmed before every rule, and a
   * failed rule comes with its message.
   */
  function ValidateField(name: FieldName, raw: string, passwordRaw: string): (r: FieldResult)
    ensures r.valid <==> r.message == ""
    ensures r.valid <==> FieldRule(name, Trim(raw), passwordRaw)
  {
    var value := Trim(raw);
    match name
    case NameField => CheckName(value)
    case EmailField => CheckEmail(value)
    case AgeField => CheckAge(value)
    case PasswordField => CheckPassword(value)
    case ConfirmField => CheckConfirm(value, passwordRaw)
    case OtherField => FieldResult(true, "")
  }

  /** The inputs `validateForm` and `saveProfile` read: the values of the
      fields named `name`, `email` and `age`, of the `#userPassword` input
      (named `password`) and of the `#confirmPassword` input; None when the
      element does not exist. */
  datatype ProfileInputs = ProfileInputs(name: Option<string>, email: Option<string>, age: Option<string>,
                                         password: Option<string>, confirm: Option<string>)

  /** `document.querySelector('[name="..."]')` for a required field. */
  function Field(f: ProfileInputs, name: FieldName): Option<string>
    requires name in {NameField, EmailField, AgeField}
  {
    match name
    case NameField => f.name
    case EmailField => f.email
    case AgeField => f.age
  }

  const RequiredFields: seq<FieldName> := [NameField, EmailField, AgeField]

  /** A required field passes: absent (skipped), or present and valid. */
  predicate RequiredOk(f: ProfileInputs, name: FieldName)
    requires name in {NameField, EmailField, AgeField}
  {
    Field(f, name).Some? ==> ValidateField(name, Field(f, name).value, "").valid
  }

  /** The password pair passes: only checked when the password input holds
      something (untrimmed); then the password and, if present, the confirm
      field must pass. */
  predicate PasswordPairOk(f: ProfileInputs) {
    f.password.Some? && f.password.value != "" ==>
      ValidateField(PasswordField, f.password.value, f.password.value).valid &&
      (f.confirm.Some? ==> ValidateField(ConfirmField, f.confirm.value, f.password.value).valid)
  }

  /** The verdict of `validateForm`. */
  predicate FormValid(f: ProfileInputs) {
    RequiredOk(f, NameField) && RequiredOk(f, EmailField) && RequiredOk(f, AgeField) && PasswordPairOk(f)
  }

  /** The first `k` required fields pass. */
  predicate RequiredPrefixOk(f: ProfileInputs, k: nat)
    requires k <= |RequiredFields|
  {
    k == 0 || (RequiredPrefixOk(f, k - 1) && RequiredOk(f, RequiredFields[k - 1]))
  }

  lemma RequiredPrefixStep(f: ProfileInputs, k: nat)
    requires k < |RequiredFields|
    ensures RequiredPrefixOk(f, k + 1) <==> RequiredPrefixOk(f, k) && RequiredOk(f, RequiredFields[k])
    ensures RequiredOk(f, RequiredFields[k]) <==>
      Field(f, RequiredFields[k]).None? || ValidateField(RequiredFields[k], Field(f, RequiredFields[k]).value, "").valid
  {
  }

  lemma RequiredPrefixAll(f: ProfileInputs)
    ensures RequiredPrefixOk(f, |RequiredFields|) <==>
      RequiredOk(f, NameField) && RequiredOk(f, EmailField) && RequiredOk(f, AgeField)
  {
    assert RequiredFields[0] == NameField && RequiredFields[1] == EmailField && RequiredFields[2] == AgeField;
    assert RequiredPrefixOk(f, 0);
    RequiredPrefixStep(f, 0);
    RequiredPrefixStep(f, 1);
    RequiredPrefixStep(f, 2);
  }

  /** `validateForm()`: validate each required field in turn, then the
      password pair, clearing the flag on any failure. */
  method ValidateForm(f: ProfileInputs) returns (isValid: bool)
    ensures isValid == FormValid(f)
  {
    isValid := true;
    var k := 0;
    while k < |RequiredFields|
      invariant 0 <= k <= |RequiredFields|
      invariant isValid == RequiredPrefixOk(f, k)
    {
      var name := RequiredFields[k];
      var field := Field(f, name);
      if field.Some? && !ValidateField(name, field.value, "").valid {
        isValid := false;
      }
      RequiredPrefixStep(f, k);
      k := k + 1;
    }
    RequiredPrefixAll(f);
    if f.password.Some? && f.password.value != "" {
      if !ValidateField(PasswordField, f.password.value, f.password.value).valid {
        isValid := false;
      }
      if f.confirm.Some? && !ValidateField(ConfirmField, f.confirm.value, f.password.value).valid {
        isValid := false;
      }
    }
  }

  /** A valid form has a name of 2 to 100 UTF-16 code units, a well-formed email and
      an age from 13 to 122 (each when its field exists), and a password that
      is blank or is at least 8 code units with a lower-case letter, an
      upper-case letter and a digit once trimmed. */
  lemma FormValidMeaning(f: ProfileInputs)
    requires FormValid(f)
    ensures f.name.Some? ==> 2 <= Utf16Length(Trim(f.name.value)) <= 100
    ensures f.email.Some? ==> EmailPattern(Trim(f.email.value))
    ensures f.age.Some? ==> ParseInt(Trim(f.age.value)).Some? && 13 <= ParseInt(Trim(f.age.value)).value <= 122
    ensures f.password.Some? ==> Trim(f.password.value) == "" ||
                                 (Utf16Length(Trim(f.password.value)) >= 8 && PasswordPattern(Trim(f.password.value)))
  {
    if f.name.Some? {
      assert RequiredOk(f, NameField);
      assert FieldRule(NameField, Trim(f.name.value), "");
    }
    if f.email.Some? {
      assert RequiredOk(f, EmailField);
      assert FieldRule(EmailField, Trim(f.email.value), "");
    }
    if f.age.Some? {
      assert RequiredOk(f, AgeField);
      assert FieldRule(AgeField, Trim(f.age.value), "");
    }
    if f.password.Some? {
      var p := f.password.value;
      if p == "" {
        assert Trim(p) == "";
      } else {
        assert PasswordPairOk(f);
        assert FieldRule(PasswordField, Trim(p), p);
      }
    }
  }

  /** `hasUnsavedChanges()`: the password input exists and is not blank. */
  function HasUnsavedChanges(password: Option<string>): (r: bool)
    ensures r <==> password.Some? && exists k :: 0 <= k < |password.value| && !IsSpace(password.value[k])
  {
    if password.Some? then TrimSpec(password.value); Trim(password.value) != "" else false
  }

  /** The body `saveProfile` sends: `formData.get` is None for a missing
      field, the age is `parseInt` of the field (None for NaN), and the
      password key is dropped when the field is missing or empty. */
  datatype ProfilePayload = ProfilePayload(name: Option<string>, email: Option<string>, age: Option<int>, password: Option<string>)

  function Payload(f: ProfileInputs): (p: ProfilePayload)
    ensures p.name == f.name && p.email == f.email
    ensures p.age.Some? ==> f.age.Some? && p.age == ParseInt(f.age.value)
    ensures p.password.Some? <==> IsTruthy(f.password)
    ensures p.password.Some? ==> p.password == f.password
  {
    // A missing field gives `null`, which `parseInt` reads as "null": NaN.
    var age := if f.age.Some? then ParseInt(f.age.value) else None;
    ProfilePayload(f.name, f.email, age, if IsTruthy(f.password) then f.password else None)
  }

  /** `parseInt(null)` reads the text "null" and gives NaN. */
  lemma ParseIntOfNull()
    ensures ParseInt("null") == None
  {
    var s := "null";
    assert s[0] == 'n' && !IsSpace(s[0]) && !IsDigit(s[0]);
    assert TrimStart(s) == s;
    assert ParseMagnitude(s).None?;
  }

  /** The age sent is the age validated: a valid age field is sent as the
      number it was validated as. */
  lemma PayloadAgeIsValidated(f: ProfileInputs)
    requires FormValid(f) && f.age.Some?
    ensures Payload(f).age == ParseInt(Trim(f.age.value))
    ensures Payload(f).age.Some? && 13 <= Payload(f).age.value <= 122
  {
    FormValidMeaning(f);
    ParseIntOfTrimmed(f.age.value);
  }

  // ---------------------------------------------------------------------
  // Findings: the password pair as written and as evidently intended.

  /** As written, a password made only of white space passes validation (its
      trimmed value is empty) and is still sent, because the payload keeps
      any non-empty raw value. */
  lemma BlankPasswordIsSent()
    ensures FormValid(BlankPasswordForm())
    ensures Payload(BlankPasswordForm()).password == Some("   ")
    ensures !HasUnsavedChanges(BlankPasswordForm().password)
  {
    SampleFields();
    BlankSample();
    FormValidOfFields(BlankPasswordForm());
  }

  /** A filled-in form whose password field holds three spaces. */
  function BlankPasswordForm(): ProfileInputs {
    ProfileInputs(Some("Ann"), Some("ann@mail.com"), Some("30"), Some("   "), Some(""))
  }

  /** `validateForm` passes when each field it checks passes. */
  lemma FormValidOfFields(f: ProfileInputs)
    requires f.name.Some? ==> ValidateField(NameField, f.name.value, "").valid
    requires f.email.Some? ==> ValidateField(EmailField, f.email.value, "").valid
    requires f.age.Some? ==> ValidateField(AgeField, f.age.value, "").valid
    requires PasswordPairOk(f)
    ensures FormValid(f)
  {
  }

  lemma SampleFields()
    ensures ValidateField(NameField, "Ann", "").valid
    ensures ValidateField(EmailField, "ann@mail.com", "").valid
    ensures ValidateField(AgeField, "30", "").valid
    ensures ValidateField(PasswordField, "   ", "   ").valid
    ensures ValidateField(ConfirmField, "", "   ").valid
  {
    SampleName();
    SampleEmail();
    SampleAge();
    SampleBlankPair();
  }

  lemma SampleName()
    ensures ValidateField(NameField, "Ann", "").valid
  {
    var v := "Ann";
    TrimUnpadded(v);
    assert forall i :: 0 <= i < |v| ==> !IsAstral(v[i]);
    Utf16LengthIsLength(v);
  }

  /** The length rules count UTF-16 code units as `.length` does: one
      astral character is already a name of two. */
  lemma AstralName()
    ensures |"\U{1F600}"| == 1 && ValidateField(NameField, "\U{1F600}", "").valid
  {
    var face := "\U{1F600}";
    TrimUnpadded(face);
    AstralUnits(face);
  }

  /** Seven characters, one of them astral, make a password of eight code
      units. */
  lemma AstralPassword()
    ensures |"Abcde1\U{1F600}"| == 7 && ValidateField(PasswordField, "Abcde1\U{1F600}", "").valid
  {
    var v := "Abcde1\U{1F600}";
    TrimUnpadded(v);
    AstralPasswordUnits(v);
    AstralPasswordPattern(v);
    PasswordAccepted(v);
  }

  lemma PasswordAccepted(v: string)
    requires Trim(v) == v && v != "" && Utf16Length(v) >= 8 && PasswordPattern(v)
    ensures ValidateField(PasswordField, v, "").valid
  {
  }

  lemma AstralPasswordUnits(v: string)
    requires v == "Abcde1\U{1F600}"
    ensures Utf16Length(v) == 8
  {
    var word, face := "Abcde1", "\U{1F600}";
    assert v == word + face;
    assert forall i :: 0 <= i < |word| ==> !IsAstral(word[i]);
    Utf16LengthIsLength(word);
    AstralUnits(face);
    Utf16LengthAppend(word, face);
  }

  lemma AstralPasswordPattern(v: string)
    requires v == "Abcde1\U{1F600}"
    ensures PasswordPattern(v)
  {
    assert IsLower(v[1]) && IsUpper(v[0]) && IsDigit(v[5]);
    assert forall k :: 0 <= k < |v| ==> !IsLineTerminator(v[k]);
  }

  lemma AstralUnits(face: string)
    requires face == "\U{1F600}"
    ensures Utf16Length(face) == 2
  {
    assert IsAstral(face[0]) && face[1..] == [];
  }

  lemma SampleBlankPair()
    ensures ValidateField(PasswordField, "   ", "   ").valid
    ensures ValidateField(ConfirmField, "", "   ").valid
  {
    BlankSample();
  }

  lemma SampleEmail()
    ensures ValidateField(EmailField, "ann@mail.com", "").valid
  {
    TrimUnpadded("ann@mail.com");
    EmailOfSample();
  }

  lemma SampleAge()
    ensures ValidateField(AgeField, "30", "").valid
  {
    TrimUnpadded("30");
    ThirtyParses();
  }

  lemma ThirtyParses()
    ensures ParseInt("30") == Some(30)
  {
    ParseIntDecimalPrefix("30", "");
    assert "30" + "" == "30";
    assert "30"[..1] == "3";
  }

  lemma BlankSample()
    ensures Trim("   ") == ""
  {
    TrimSpec("   ");
  }

  lemma EmailOfSample()
    ensures EmailPattern("ann@mail.com")
  {
    var v := "ann@mail.com";
    assert v[3] == '@' && v[8] == '.';
    assert AllPlain(v[..3]) && AllPlain(v[4..8]) && AllPlain(v[9..]);
  }

  /** As written, the confirm rule compares the trimmed confirmation with the
      untrimmed password, so typing the same padded password twice is
      refused although the password rule accepts it. */
  lemma PaddedPasswordNeverConfirms()
    ensures ValidateField(PasswordField, " Abcdefg1", " Abcdefg1").valid
    ensures !ValidateField(ConfirmField, " Abcdefg1", " Abcdefg1").valid
  {
    PaddedSample();
    SamplePassword();
  }

  lemma PaddedSample()
    ensures Trim(" Abcdefg1") == "Abcdefg1"
  {
    var pad, w := " ", "Abcdefg1";
    assert pad + w == " Abcdefg1";
    TrimAfterLeadingSpace(pad, w);
  }

  lemma SamplePassword()
    ensures PasswordPattern("Abcdefg1")
  {
    var v := "Abcdefg1";
    assert IsLower(v[1]) && IsUpper(v[0]) && IsDigit(v[7]);
    assert forall k :: 0 <= k < |v| ==> !IsLineTerminator(v[k]);
  }

  /** The password that is evidently meant to be sent: none when the field
      is blank, otherwise the raw value. */
  function IntendedPassword(f: ProfileInputs): (p: Option<string>)
    ensures p.Some? ==> p == f.password
    ensures p.Some? <==> f.password.Some? && Trim(f.password.value) != ""
  {
    if f.password.Some? && Trim(f.password.value) != "" then f.password else None
  }

  /** The confirmation evidently intended: blank, or exactly what was typed
      as the password. */
  predicate ConfirmMatches(confirmRaw: string, passwordRaw: string) {
    Trim(confirmRaw) == "" || confirmRaw == passwordRaw
  }

  /** With the intended rules, a password that is sent has passed the
      password rule, and a filled-in confirmation equals it; typing the same
      password twice always confirms. */
  lemma IntendedPasswordRules(f: ProfileInputs, typed: string)
    requires FormValid(f)
    ensures IntendedPassword(f).Some? ==>
      Utf16Length(Trim(IntendedPassword(f).value)) >= 8 && PasswordPattern(Trim(IntendedPassword(f).value))
    ensures ConfirmMatches(typed, typed)
    ensures IntendedPassword(BlankPasswordForm()) == None
  {
    BlankSample();
    if IntendedPassword(f).Some? {
      FormValidMeaning(f);
    }
  }

  /** The password pair as evidently intended: the confirmation is held to
      `ConfirmMatches` instead of the trimmed comparison. */
  predicate IntendedPairOk(f: ProfileInputs) {
    f.password.Some? && f.password.value != "" ==>
      ValidateField(PasswordField, f.password.value, f.password.value).valid &&
      (f.confirm.Some? ==> ConfirmMatches(f.confirm.value, f.password.value))
  }

  /** The form check evidently intended: the required fields as `validateForm`
      checks them, and the password pair as `IntendedPairOk` does. */
  predicate IntendedFormValid(f: ProfileInputs) {
    RequiredOk(f, NameField) && RequiredOk(f, EmailField) && RequiredOk(f, AgeField) && IntendedPairOk(f)
  }

  /** With the intended check, a password typed identically in both inputs is
      accepted exactly when the password rule accepts it. */
  lemma IntendedAcceptsRepeatedPassword(f: ProfileInputs)
    requires f.confirm == f.password
    ensures IntendedFormValid(f) <==>
      RequiredOk(f, NameField) && RequiredOk(f, EmailField) && RequiredOk(f, AgeField) &&
      (f.password.Some? && f.password.value != "" ==> ValidateField(PasswordField, f.password.value, f.password.value).valid)
  {
  }

  /** The padded password " Abcdefg1" typed twice: refused by the check as
      written, accepted by the intended one. */
  lemma PaddedPasswordConfirmsAsIntended()
    ensures var p := Some(" Abcdefg1");
            var f := ProfileInputs(None, None, None, p, p);
            IntendedFormValid(f) && !FormValid(f)
  {
    PaddedPasswordNeverConfirms();
    TypedTwiceOnlyIntended(" Abcdefg1");
  }

  lemma TypedTwiceOnlyIntended(p: string)
    requires p != ""
    requires ValidateField(PasswordField, p, p).valid && !ValidateField(ConfirmField, p, p).valid
    ensures var f := ProfileInputs(None, None, None, Some(p), Some(p));
            IntendedFormValid(f) && !FormValid(f)
  {
    var f := ProfileInputs(None, None, None, Some(p), Some(p));
    assert ConfirmMatches(p, p);
    assert !PasswordPairOk(f);
  }
}
