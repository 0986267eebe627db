/** The account-deletion dialog of the live edit-profile controller: the
    confirm button is enabled only while the exact phrase is typed, and a
    confirmed deletion sends the stored token and clears both storages only
    when the server answers 204. The controller's form rules are those of
    `ProfileRules`; its token lookup and logout are those of `Session`. */
module EditProfile {
  import opened Wrappers
  import opened JsText
  import opened Session

  /** The phrase that enables the delete button. */
  const DeletePhrase: string := "DELETE ACCOUNT"

  /** What a click on the confirm button leads to: nothing (the button is
      disabled, so the browser fires no click), the missing-token error, or
      the `DELETE` request with its `Authorization` header and the status it
      was answered with. */
  datatype DeleteOutcome =
    | Ignored
    | NoToken
    | Deleted(authorization: string)
    | Refused(authorization: string, status: int)

  /**
   * The confirm-click handler of `handleDelete`: look up the token with
   * `getTokenFromStorage`, fail without a request when there is none, send
   * the request otherwise, and treat only status 204 as success. `status` is
   * the status the server answers with.
   */
  function DeleteRequest(buttonDisabled: bool, local: map<string, string>, session: map<string, string>,
                         status: int): (r: DeleteOutcome)
    ensures r.Ignored? <==> buttonDisabled
    ensures r.NoToken? <==> !buttonDisabled && !IsTruthy(GetTokenFromStorage(local, session))
    ensures r.Deleted? <==> !buttonDisabled && IsTruthy(GetTokenFromStorage(local, session)) && status == 204
    ensures r.Refused? ==> r.status == status && status != 204
    ensures (r.Deleted? || r.Refused?) ==>
      Some(r.authorization) == UserInfoAuthorization(local, session) &&
      exists t :: t in local.Values + session.Values && t != "" && r.authorization == "Bearer " + t
  {
    if buttonDisabled then Ignored
    else
      var token := GetTokenFromStorage(local, session);
      if !IsTruthy(token) then NoToken
      else
        var authorization := "Bearer " + token.value;
        if status == 204 then Deleted(authorization) else Refused(authorization, status)
  }

  /** With the button state the dialog keeps, an account is deleted exactly
      when the phrase is typed exactly, a token is stored, and the server
      answers 204; a near miss such as lower case or a trailing space does
      not enable the button. */
  lemma DeleteNeedsPhraseTokenAnd204(text: string, local: map<string, string>, session: map<string, string>,
                                     status: int)
    ensures DeleteRequest(text != DeletePhrase, local, session, status).Deleted? <==>
      text == DeletePhrase && status == 204 &&
      (("token" in local && local["token"] != "") || ("authToken" in local && local["authToken"] != "") ||
       ("jwt" in local && local["jwt"] != "") || ("token" in session && session["token"] != ""))
    ensures DeleteRequest("delete account" != DeletePhrase, local, session, status).Ignored?
    ensures DeleteRequest("DELETE ACCOUNT " != DeletePhrase, local, session, status).Ignored?
  {
    TokenFoundIff(local, session);
    assert "delete account"[0] != DeletePhrase[0];
    assert |"DELETE ACCOUNT "| != |DeletePhrase|;
  }

  /** Once the storages are cleared, a second confirmation finds no token and
      sends nothing. */
  lemma NoSecondDeletion(status: int)
    ensures DeleteRequest(false, map[], map[], status) == NoToken
  {
  }

  /** The delete dialog: whether it is shown, the text typed into
      `#deleteConfirmText`, whether `#confirmDeleteBtn` is disabled, and the
      browser storage the deletion clears. */
  class DeleteAccountDialog {
    var shown: bool
    var confirmText: string
    var confirmDisabled: bool
    const storage: BrowserStorage

    /** The button is enabled exactly while the phrase is typed. */
    predicate Valid()
      reads this
    {
      confirmDisabled <==> confirmText != DeletePhrase
    }

    /** The dialog as the page starts: hidden, empty and disabled. */
    constructor(storage: BrowserStorage)
      ensures Valid() && !shown && confirmText == "" && confirmDisabled
      ensures this.storage == storage
    {
      shown := false;
      confirmText := "";
      confirmDisabled := true;
      this.storage := storage;
    }

    /** `handleDelete()`: show the dialog. */
    method Open()
      requires Valid()
      modifies this
      ensures Valid() && shown
      ensures confirmText == old(confirmText) && confirmDisabled == old(confirmDisabled)
    {
      shown := true;
    }

    /** The input listener `validateInputs`, after `text` was typed. */
    method Input(text: string)
      modifies this
      ensures Valid()
      ensures confirmText == text && shown == old(shown)
    {
      confirmText := text;
      confirmDisabled := text != DeletePhrase;
    }

    /** `closeModal`: hide the dialog, clear the text and disable the button. */
    method Close()
      modifies this
      ensures Valid() && !shown && confirmText == "" && confirmDisabled
    {
      shown := false;
      confirmText := "";
      confirmDisabled := true;
    }

    /** A click on the confirm button, answered with `status` if a request is
        sent: only a 204 clears both storages and shows the login view. */
    method ConfirmClick(status: int) returns (outcome: DeleteOutcome)
      requires Valid()
      modifies this, storage
      ensures outcome == DeleteRequest(old(confirmText) != DeletePhrase, old(storage.local), old(storage.session), status)
      ensures outcome.Deleted? ==> storage.local == map[] && storage.session == map[] && storage.location == "#/login"
      ensures !outcome.Deleted? ==>
        storage.local == old(storage.local) && storage.session == old(storage.session) &&
        storage.location == old(storage.location)
      ensures shown == old(shown) && confirmText == old(confirmText) && confirmDisabled == old(confirmDisabled)
    {
      if confirmDisabled {
        return Ignored;
      }
      var token := GetTokenFromStorage(storage.local, storage.session);
      if !IsTruthy(token) {
        return NoToken;
      }
      var authorization := "Bearer " + token.value;
      if status == 204 {
        storage.ClearAll();
        storage.location := "#/login";
        outcome := Deleted(authorization);
      } else {
        outcome := Refused(authorization, status);
      }
    }
  }
}
