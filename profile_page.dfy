/** The older edit-profile page (`EditProfileController` of the profile page):
    the avatar type and size gate, the two password-visibility toggles,
    `populateForm` from the stored user data, and `saveProfile`, which keeps
    the payload in local storage. Field and form validation are the rules of
    `ProfileRules`, which this page shares with the live controller. */
module ProfilePage {
  import opened Wrappers
  import opened JsText
  import opened ProfileRules

  // ---------------------------------------------------------------------
  // Avatar gate

  /** The picked file as the gate sees it: its MIME type and its size in bytes. */
  datatype AvatarFile = AvatarFile(mimeType: string, size: nat)

  /** `5 * 1024 * 1024`: the largest accepted avatar, in bytes. */
  const MaxAvatarBytes: nat := 5 * 1024 * 1024

  /** What `handleAvatarChange` does with the picked file: nothing (no file),
      reject it as not an image, reject it as too large, or preview it. */
  datatype AvatarVerdict = NoFile | NotAnImage | TooLarge | Preview

  predicate StartsWith(s: string, prefix: string) {
    |prefix| <= |s| && s[..|prefix|] == prefix
  }

  /** The checks of `handleAvatarChange`, in their order: the type must start
      with `image/`, then the size must not exceed 5 MiB. */
  function CheckAvatar(file: Option<AvatarFile>): (v: AvatarVerdict)
    ensures v == NoFile <==> file.None?
    ensures v == NotAnImage <==> file.Some? && !StartsWith(file.value.mimeType, "image/")
    ensures v == TooLarge <==>
      file.Some? && StartsWith(file.value.mimeType, "image/") && file.value.size > MaxAvatarBytes
    ensures v == Preview <==>
      file.Some? && StartsWith(file.value.mimeType, "image/") && file.value.size <= MaxAvatarBytes
  {
    match file
    case None => NoFile
    case Some(f) =>
      if !StartsWith(f.mimeType, "image/") then NotAnImage
      else if f.size > MaxAvatarBytes then TooLarge
      else Preview
  }

  /** The size bound is inclusive: an image of exactly 5 MiB is previewed, one
      byte more is refused, and an accepted image stays accepted when smaller. */
  lemma AvatarSizeBoundary(mimeType: string, size: nat, smaller: nat)
    requires StartsWith(mimeType, "image/")
    requires CheckAvatar(Some(AvatarFile(mimeType, size))) == Preview && smaller <= size
    ensures CheckAvatar(Some(AvatarFile(mimeType, 5242880))) == Preview
    ensures CheckAvatar(Some(AvatarFile(mimeType, 5242881))) == TooLarge
    ensures CheckAvatar(Some(AvatarFile(mimeType, smaller))) == Preview
  {
  }

  /** The type test is a prefix test: `image/` followed by anything passes, and
      a type such as `text/image/png` does not. */
  lemma AvatarTypeIsPrefix(subtype: string)
    ensures CheckAvatar(Some(AvatarFile("image/" + subtype, 0))) == Preview
    ensures CheckAvatar(Some(AvatarFile("text/image/png", 0))) == NotAnImage
  {
    assert ("image/" + subtype)[..6] == "image/";
    assert "text/image/png"[..6] != "image/" by {
      assert "text/image/png"[0] == 't';
    }
  }

  // ---------------------------------------------------------------------
  // Password visibility

  /** The hide and show eye icons. The controllers' files store these two
      emoji mis-encoded (their UTF-8 bytes decoded as a single-byte code
      page), so a browser showing them as written prints other characters;
      the model uses the emoji the code evidently means. */
  const HideIcon: string := "\U{1F648}"
  const ShowIcon: string := "\U{1F441}\U{FE0F}"

  /** One password field's visibility: the controller's flag, the input's
      `type`, and the text of the toggle's `.eye-icon` (None when the toggle
      has no such element). */
  datatype Visibility = Visibility(visible: bool, inputType: string, icon: Option<string>)

  /** The input's type and the icon agree with the flag. */
  predicate Consistent(v: Visibility) {
    v.inputType == (if v.visible then "text" else "password") &&
    (v.icon.Some? ==> v.icon.value == (if v.visible then HideIcon else ShowIcon))
  }

  /** `togglePasswordVisibility` / `toggleConfirmPasswordVisibility`: when the
      input exists, flip the flag and make the type and the icon follow it;
      otherwise change nothing. */
  function Toggle(inputPresent: bool, v: Visibility): (r: Visibility)
    ensures inputPresent ==> r.visible == !v.visible && Consistent(r) && (r.icon.Some? <==> v.icon.Some?)
    ensures !inputPresent ==> r == v
  {
    if inputPresent then
      var visible := !v.visible;
      Visibility(visible, if visible then "text" else "password",
                 if v.icon.Some? then Some(if visible then HideIcon else ShowIcon) else None)
    else v
  }

  /** Toggling twice restores the flag, and restores everything else too when
      the type and the icon agreed with the flag to begin with. */
  lemma ToggleTwiceRestores(inputPresent: bool, v: Visibility)
    ensures Toggle(inputPresent, Toggle(inputPresent, v)).visible == v.visible
    ensures Consistent(v) ==> Toggle(inputPresent, Toggle(inputPresent, v)) == v
  {
  }

  // ---------------------------------------------------------------------
  // Loading and saving the profile

  /** The values of the `#userName`, `#userEmail` and `#userAge` inputs, whose
      `name` attributes are `name`, `email` and `age`; None when the element
      does not exist. */
  datatype FormFields = FormFields(name: Option<string>, email: Option<string>, age: Option<string>)

  /** The inputs `validateForm` and `new FormData(form)` see: the three fields
      by name, and the `#userPassword` (named `password`) and
      `#confirmPassword` inputs. */
  function Inputs(fields: FormFields, password: Option<string>, confirm: Option<string>): ProfileInputs {
    ProfileInputs(fields.name, fields.email, fields.age, password, confirm)
  }

  /** `if (input && value) input.value = value`: a field is overwritten only
      when it exists and the stored value is truthy. */
  function Overwrite(current: Option<string>, stored: Option<string>): Option<string> {
    if current.Some? && IsTruthy(stored) then stored else current
  }

  /** The stored age as the input shows it: a number is truthy unless it is 0
      (NaN was stored as `null`), and assigning it writes `String(age)`. */
  function AgeText(age: Option<int>): Option<string> {
    if age.Some? && age.value != 0 then Some(IntToString(age.value)) else None
  }

  /** `populateForm(userData)` on the three fields. */
  function Populate(fields: FormFields, d: ProfilePayload): (r: FormFields)
    ensures (r.name.Some? <==> fields.name.Some?) && (r.email.Some? <==> fields.email.Some?) &&
            (r.age.Some? <==> fields.age.Some?)
    ensures r.name != fields.name ==> r.name == d.name && d.name.value != ""
    ensures r.email != fields.email ==> r.email == d.email && d.email.value != ""
    ensures r.age != fields.age ==> d.age.Some? && d.age.value != 0 && r.age == Some(IntToString(d.age.value))
  {
    FormFields(Overwrite(fields.name, d.name), Overwrite(fields.email, d.email),
               Overwrite(fields.age, AgeText(d.age)))
  }

  /** Saving a valid form and loading it back leaves the name and the email
      as they were, and shows the age as the number that was validated, which
      validates again. */
  lemma SaveThenLoad(fields: FormFields, password: Option<string>, confirm: Option<string>)
    requires fields.name.Some? && fields.email.Some? && fields.age.Some?
    requires FormValid(Inputs(fields, password, confirm))
    ensures var r := Populate(fields, Payload(Inputs(fields, password, confirm)));
      r.name == fields.name && r.email == fields.email && r.age.Some? &&
      ParseInt(Trim(r.age.value)) == ParseInt(Trim(fields.age.value)) &&
      ValidateField(AgeField, r.age.value, "").valid
  {
    var f := Inputs(fields, password, confirm);
    FormValidMeaning(f);
    PayloadAgeIsValidated(f);
    ReloadFields(fields, Payload(f));
  }

  /** Loading a payload that carries the fields' own non-blank name and
      email and the age parsed from the age field. */
  lemma ReloadFields(fields: FormFields, p: ProfilePayload)
    requires fields.name.Some? && fields.email.Some? && fields.age.Some?
    requires p.name == fields.name && p.email == fields.email
    requires Trim(fields.name.value) != "" && Trim(fields.email.value) != ""
    requires p.age == ParseInt(fields.age.value) == ParseInt(Trim(fields.age.value))
    requires p.age.Some? && 13 <= p.age.value <= 122
    ensures var r := Populate(fields, p);
      r.name == fields.name && r.email == fields.email && r.age.Some? &&
      ParseInt(Trim(r.age.value)) == ParseInt(Trim(fields.age.value)) &&
      ValidateField(AgeField, r.age.value, "").valid
  {
    NonBlankIsTruthy(fields.name.value);
    NonBlankIsTruthy(fields.email.value);
    AgeReloads(fields.age.value);
  }

  lemma NonBlankIsTruthy(s: string)
    requires Trim(s) != ""
    ensures s != ""
  {
  }

  /** A valid age is stored as its number and shown again as that number's
      decimal text, which reads back to the same number. */
  lemma AgeReloads(raw: string)
    requires ParseInt(Trim(raw)).Some? && 13 <= ParseInt(Trim(raw)).value <= 122
    requires ParseInt(raw) == ParseInt(Trim(raw))
    ensures AgeText(ParseInt(raw)).Some?
    ensures ParseInt(Trim(AgeText(ParseInt(raw)).value)) == ParseInt(Trim(raw))
    ensures ValidateField(AgeField, AgeText(ParseInt(raw)).value, "").valid
  {
    var age := ParseInt(Trim(raw)).value;
    assert AgeText(ParseInt(raw)) == Some(IntToString(age));
    AgeTextReads(age);
  }

  lemma AgeTextReads(age: nat)
    requires 13 <= age <= 122
    ensures Trim(IntToString(age)) == IntToString(age)
    ensures ParseInt(IntToString(age)) == Some(age)
    ensures ValidateField(AgeField, IntToString(age), "").valid
  {
    AgeTextParses(age);
  }

  lemma AgeTextParses(age: nat)
    requires 13 <= age <= 122
    ensures Trim(IntToString(age)) == IntToString(age)
    ensures ParseInt(IntToString(age)) == Some(age)
  {
    var text := IntToString(age);
    ParseIntOfDecimal(age);
    assert text == Decimal(age);
    assert IsDigit(text[0]) && IsDigit(text[|text| - 1]);
    TrimUnpadded(text);
  }

  /**
   * The page's state: the form fields, the two password inputs and their
   * visibility, the `src` of `#avatarPreview` (None when the element does not
   * exist), and the `userData` entry of local storage, kept as the payload
   * that `JSON.stringify` wrote.
   */
  class ProfilePage {
    var fields: FormFields
    var password: Option<string>
    var confirm: Option<string>
    var passwordView: Visibility
    var confirmView: Visibility
    var avatarPreview: Option<string>
    var userData: Option<ProfilePayload>

    /** The page as `init` leaves it before the stored data is loaded: both
        passwords hidden. */
    constructor(fields: FormFields, password: Option<string>, confirm: Option<string>,
                avatarPreview: Option<string>, userData: Option<ProfilePayload>)
      ensures this.fields == fields && this.password == password && this.confirm == confirm
      ensures this.avatarPreview == avatarPreview && this.userData == userData
      ensures !passwordView.visible && !confirmView.visible
      ensures Consistent(passwordView) && Consistent(confirmView)
    {
      this.fields := fields;
      this.password := password;
      this.confirm := confirm;
      this.avatarPreview := avatarPreview;
      this.userData := userData;
      this.passwordView := Visibility(false, "password", Some(ShowIcon));
      this.confirmView := Visibility(false, "password", Some(ShowIcon));
    }

    function Form(): ProfileInputs
      reads this
    {
      Inputs(fields, password, confirm)
    }

    /** `populateForm(userData)` */
    method PopulateForm(d: ProfilePayload)
      modifies this
      ensures fields == Populate(old(fields), d)
      ensures password == old(password) && confirm == old(confirm) && userData == old(userData)
      ensures avatarPreview == old(avatarPreview)
      ensures passwordView == old(passwordView) && confirmView == old(confirmView)
    {
      var name, email, age := fields.name, fields.email, fields.age;
      if name.Some? && IsTruthy(d.name) {
        name := d.name;
      }
      if email.Some? && IsTruthy(d.email) {
        email := d.email;
      }
      if age.Some? && d.age.Some? && d.age.value != 0 {
        age := Some(IntToString(d.age.value));
      }
      fields := FormFields(name, email, age);
    }

    /** `loadUserData()`: populate the form from local storage when an entry
        is there. */
    method LoadUserData()
      modifies this
      ensures userData.Some? ==> fields == Populate(old(fields), userData.value)
      ensures userData.None? ==> fields == old(fields)
      ensures password == old(password) && confirm == old(confirm) && userData == old(userData)
      ensures avatarPreview == old(avatarPreview)
      ensures passwordView == old(passwordView) && confirmView == old(confirmView)
    {
      if userData.Some? {
        PopulateForm(userData.value);
      }
    }

    /** `handleAvatarChange`: check the picked file and, when it passes and the
        preview element exists, show the data URL the reader produced. */
    method HandleAvatarChange(file: Option<AvatarFile>, dataUrl: string) returns (verdict: AvatarVerdict)
      modifies this
      ensures verdict == CheckAvatar(file)
      ensures avatarPreview == if verdict == Preview && old(avatarPreview).Some? then Some(dataUrl)
                               else old(avatarPreview)
      ensures fields == old(fields) && password == old(password) && confirm == old(confirm)
      ensures userData == old(userData) && passwordView == old(passwordView) && confirmView == old(confirmView)
    {
      if file.None? {
        return NoFile;
      }
      var f := file.value;
      if !StartsWith(f.mimeType, "image/") {
        return NotAnImage;
      }
      if f.size > MaxAvatarBytes {
        return TooLarge;
      }
      if avatarPreview.Some? {
        avatarPreview := Some(dataUrl);
      }
      return Preview;
    }

    /** `togglePasswordVisibility()` */
    method TogglePasswordVisibility()
      modifies this
      ensures passwordView == Toggle(password.Some?, old(passwordView))
      ensures confirmView == old(confirmView)
      ensures fields == old(fields) && password == old(password) && confirm == old(confirm)
      ensures userData == old(userData) && avatarPreview == old(avatarPreview)
    {
      if password.Some? {
        var visible := !passwordView.visible;
        var icon := passwordView.icon;
        if icon.Some? {
          icon := Some(if visible then HideIcon else ShowIcon);
        }
        passwordView := Visibility(visible, if visible then "text" else "password", icon);
      }
    }

    /** `toggleConfirmPasswordVisibility()` */
    method ToggleConfirmPasswordVisibility()
      modifies this
      ensures confirmView == Toggle(confirm.Some?, old(confirmView))
      ensures passwordView == old(passwordView)
      ensures fields == old(fields) && password == old(password) && confirm == old(confirm)
      ensures userData == old(userData) && avatarPreview == old(avatarPreview)
    {
      if confirm.Some? {
        var visible := !confirmView.visible;
        var icon := confirmView.icon;
        if icon.Some? {
          icon := Some(if visible then HideIcon else ShowIcon);
        }
        confirmView := Visibility(visible, if visible then "text" else "password", icon);
      }
    }

    /** `saveProfile()`: build the payload from the form and store it as the
        `userData` entry; the form itself is not changed. */
    method SaveProfile() returns (p: ProfilePayload)
      modifies this
      ensures p == Payload(old(Form()))
      ensures userData == Some(p)
      ensures fields == old(fields) && password == old(password) && confirm == old(confirm)
      ensures avatarPreview == old(avatarPreview)
      ensures passwordView == old(passwordView) && confirmView == old(confirmView)
    {
      p := Payload(Form());
      userData := Some(p);
    }

    /** `hasUnsavedChanges()` */
    function HasChanges(): (r: bool)
      reads this
      ensures r <==> password.Some? && Trim(password.value) != ""
    {
      HasUnsavedChanges(password)
    }
  }
}
