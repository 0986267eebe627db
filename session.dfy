// Token lookup and logout shared by the sitemap and edit-profile pages.
// Both controllers define the same `getTokenFromStorage` (an `||` chain over
// four storage slots) and the same `performLogout` (remove three token keys
// from both storages, then go to the login view).

module Session {
  import opened Wrappers
  import opened JsText

  /** `Storage.getItem`: null (None) for a missing key. */
  function GetItem(store: map<string, string>, key: string): (r: Option<string>)
    ensures r.Some? <==> key in store
    ensures r.Some? ==> r.value == store[key]
  {
    if key in store then Some(store[key]) else None
  }

  /** The four slots the token is looked up in, in the order of the `||` chain. */
  function Candidates(local: map<string, string>, session: map<string, string>): seq<Option<string>>
  {
    [GetItem(local, "token"), GetItem(local, "authToken"), GetItem(local, "jwt"), GetItem(session, "token")]
  }

  /**
   * Reference meaning of `a || b || ... || z`: the first truthy operand, or
   * the last operand when none is truthy.
   */
  function FirstTruthy(xs: seq<Option<string>>): (r: Option<string>)
    requires |xs| > 0
    ensures IsTruthy(r) <==> exists i :: 0 <= i < |xs| && IsTruthy(xs[i])
    ensures IsTruthy(r) ==> exists i :: 0 <= i < |xs| && r == xs[i] &&
                                         forall j :: 0 <= j < i ==> !IsTruthy(xs[j])
    ensures !IsTruthy(r) ==> r == xs[|xs| - 1]
  {
    if |xs| == 1 || IsTruthy(xs[0]) then xs[0]
    else
      var rest := FirstTruthy(xs[1..]);
      assert forall i :: 1 <= i < |xs| ==> xs[i] == xs[1..][i - 1];
      if IsTruthy(rest) then
        var k :| 0 <= k < |xs[1..]| && rest == xs[1..][k] &&
                 forall j :: 0 <= j < k ==> !IsTruthy(xs[1..][j]);
        assert rest == xs[k + 1];
        assert forall j :: 0 <= j < k + 1 ==> !IsTruthy(xs[j]) by {
          forall j | 0 <= j < k + 1 ensures !IsTruthy(xs[j]) {
            if j > 0 { assert xs[j] == xs[1..][j - 1]; }
          }
        }
        rest
      else
        rest
  }

  /** `getTokenFromStorage`, written as the `||` chain of the controllers. */
  function GetTokenFromStorage(local: map<string, string>, session: map<string, string>): (r: Option<string>)
  {
    var a := GetItem(local, "token");
    if IsTruthy(a) then a
    else
      var b := GetItem(local, "authToken");
      if IsTruthy(b) then b
      else
        var c := GetItem(local, "jwt");
        if IsTruthy(c) then c else GetItem(session, "token")
  }

  /** The `||` chain is the first truthy candidate, in storage order. */
  lemma TokenIsFirstTruthy(local: map<string, string>, session: map<string, string>)
    ensures GetTokenFromStorage(local, session) == FirstTruthy(Candidates(local, session))
  {
    var xs := Candidates(local, session);
    var ys, zs, ws := xs[1..], xs[1..][1..], xs[1..][1..][1..];
    assert ws == [GetItem(session, "token")];
    assert FirstTruthy(ws) == GetItem(session, "token");
    assert FirstTruthy(zs) == if IsTruthy(zs[0]) then zs[0] else FirstTruthy(ws);
    assert FirstTruthy(ys) == if IsTruthy(ys[0]) then ys[0] else FirstTruthy(zs);
    assert FirstTruthy(xs) == if IsTruthy(xs[0]) then xs[0] else FirstTruthy(ys);
  }

  /**
   * A token is found exactly when one of the four slots holds a non-empty
   * string; an empty string in an earlier slot is skipped.
   */
  lemma TokenFoundIff(local: map<string, string>, session: map<string, string>)
    ensures IsTruthy(GetTokenFromStorage(local, session)) <==>
      (("token" in local && local["token"] != "") ||
       ("authToken" in local && local["authToken"] != "") ||
       ("jwt" in local && local["jwt"] != "") ||
       ("token" in session && session["token"] != ""))
    ensures IsTruthy(GetTokenFromStorage(local, session)) ==>
      GetTokenFromStorage(local, session).value in local.Values + session.Values
  {
  }

  /** The keys `performLogout` removes from both storages. */
  const TokenKeys: seq<string> := ["token", "authToken", "jwt"]

  /** A storage with the token keys removed and every other entry kept. */
  function LoggedOut(store: map<string, string>): (r: map<string, string>)
    ensures r.Keys == store.Keys - {"token", "authToken", "jwt"}
    ensures forall k :: k in r ==> r[k] == store[k]
  {
    map k | k in store && k !in TokenKeys :: store[k]
  }

  /** After logout no slot yields a token, whatever the storages held. */
  lemma LogoutForgetsToken(local: map<string, string>, session: map<string, string>)
    ensures GetTokenFromStorage(LoggedOut(local), LoggedOut(session)) == None
  {
  }

  /** Logout is idempotent: a second logout changes nothing. */
  lemma LogoutIdempotent(store: map<string, string>)
    ensures LoggedOut(LoggedOut(store)) == store - {"token", "authToken", "jwt"}
    ensures LoggedOut(LoggedOut(store)) == LoggedOut(store)
  {
  }

  /**
   * `updateUserDisplay`: the authorization header of the user-info request,
   * or None when no token is found and the function returns early.
   */
  function UserInfoAuthorization(local: map<string, string>, session: map<string, string>): (r: Option<string>)
    ensures r.Some? <==> IsTruthy(GetTokenFromStorage(local, session))
    ensures r.Some? ==> r.value == "Bearer " + GetTokenFromStorage(local, session).value
    ensures r.Some? ==> exists t :: t in local.Values + session.Values && t != "" && r.value == "Bearer " + t
  {
    TokenFoundIff(local, session);
    var token := GetTokenFromStorage(local, session);
    if IsTruthy(token) then Some("Bearer " + token.value) else None
  }

  /** The browser's two storages and the top window's location. */
  class BrowserStorage {
    var local: map<string, string>
    var session: map<string, string>
    var location: string

    constructor(local: map<string, string>, session: map<string, string>, location: string)
      ensures this.local == local && this.session == session && this.location == location
    {
      this.local := local;
      this.session := session;
      this.location := location;
    }

    /** `performLogout`: remove each token key from both storages, then show the login view. */
    method PerformLogout()
      modifies this
      ensures local == LoggedOut(old(local))
      ensures session == LoggedOut(old(session))
      ensures location == "#/login"
    {
      var k := 0;
      while k < |TokenKeys|
        invariant 0 <= k <= |TokenKeys|
        invariant local == map key | key in old(local) && key !in TokenKeys[..k] :: old(local)[key]
        invariant session == map key | key in old(session) && key !in TokenKeys[..k] :: old(session)[key]
      {
        assert TokenKeys[..k + 1] == TokenKeys[..k] + [TokenKeys[k]];
        local := local - {TokenKeys[k]};
        session := session - {TokenKeys[k]};
        k := k + 1;
      }
      assert TokenKeys[..k] == TokenKeys;
      location := "#/login";
    }

    /** `localStorage.clear(); sessionStorage.clear()` after an account is deleted. */
    method ClearAll()
      modifies this
      ensures local == map[] && session == map[]
      ensures location == old(location)
    {
      local := map[];
      session := map[];
    }
  }
}
