/** The hash router of the single-page app: which view a location hash selects, where
    the view's fragment and stylesheet live, which initializers run, how the view
    stylesheet link is swapped, and the two form handlers of the router file that
    touch state (login and password reset). */
module Router {
  import opened Wrappers
  import opened JsText

  /** The views the router knows, in its own order. */
  const KnownRoutes: seq<string> :=
    ["login", "dashboard", "about_us", "edit_profile", "new_password", "recovery", "register"]

  /** The view shown for a hash naming no known view. */
  const DefaultRoute := "login"

  predicate StartsWith(s: string, prefix: string) {
    |prefix| <= |s| && s[..|prefix|] == prefix
  }

  /** `handleRoute`'s choice of view: the text after a leading "#/", or "login" when it
      is empty, absent or not a known view. */
  function ResolveRoute(hash: string): (route: string)
    ensures route in KnownRoutes
    ensures route == if StartsWith(hash, "#/") && hash[2..] in KnownRoutes then hash[2..] else DefaultRoute
  {
    var path := if StartsWith(hash, "#/") then hash[2..] else "";
    var path' := if path == "" then DefaultRoute else path;
    if path' in KnownRoutes then path' else DefaultRoute
  }

  /** An empty hash, a bare "#/", a hash not starting with "#/" or an unknown name all
      show the login view. */
  lemma ResolveFallsBack(hash: string)
    requires hash == "" || hash == "#/" || !StartsWith(hash, "#/") || hash[2..] !in KnownRoutes
    ensures ResolveRoute(hash) == DefaultRoute
  {
    if hash == "#/" {
      assert hash[2..] == "";
    }
  }

  /** "#/" followed by a known view name shows that view. */
  lemma ResolveKnown(name: string)
    requires name in KnownRoutes
    ensures ResolveRoute("#/" + name) == name
  {
    var h := "#/" + name;
    assert h[..2] == "#/" && h[2..] == name;
  }

  /** `viewURL(name)`: the fragment's path relative to the router module. */
  function ViewUrl(name: string): string {
    "../views/" + name + ".html"
  }

  /** The stylesheet `loadView` attaches for a view. */
  function CssHref(name: string): string {
    "/src/styles/" + name + "_styles.css"
  }

  /** Different views fetch different fragments and attach different stylesheets. */
  lemma UrlsAreDistinct(a: string, b: string)
    ensures ViewUrl(a) == ViewUrl(b) ==> a == b
    ensures CssHref(a) == CssHref(b) ==> a == b
  {
    if ViewUrl(a) == ViewUrl(b) {
      assert a == ViewUrl(a)[9..|ViewUrl(a)| - 5];
      assert b == ViewUrl(b)[9..|ViewUrl(b)| - 5];
    }
    if CssHref(a) == CssHref(b) {
      assert a == CssHref(a)[12..|CssHref(a)| - 11];
      assert b == CssHref(b)[12..|CssHref(b)| - 11];
    }
  }

  /** The initializers `loadView` can run. */
  datatype Init = AboutPage | Login | Dashboard | AboutUs | EditProfile | NewPassword | Recover | Register

  /** The initializers `loadView` runs for a view, in order: the dynamically imported
      `initAboutPage` (only when its module loads) and then the if-chain. */
  function Initializers(name: string, aboutModuleLoads: bool): seq<Init> {
    (if name == "about_us" && aboutModuleLoads then [AboutPage] else [])
    + (if name == "login" then [Login] else [])
    + (if name == "dashboard" then [Dashboard] else [])
    + (if name == "about_us" then [AboutUs] else [])
    + (if name == "edit_profile" then [EditProfile] else [])
    + (if name == "new_password" then [NewPassword] else [])
    + (if name == "recovery" then [Recover] else [])
    + (if name == "register" then [Register] else [])
  }

  /** The initializer a view's if-chain entry names. */
  function InitFor(name: string): Option<Init> {
    if name == "login" then Some(Login)
    else if name == "dashboard" then Some(Dashboard)
    else if name == "about_us" then Some(AboutUs)
    else if name == "edit_profile" then Some(EditProfile)
    else if name == "new_password" then Some(NewPassword)
    else if name == "recovery" then Some(Recover)
    else if name == "register" then Some(Register)
    else None
  }

  /** Every known view other than `about_us` runs exactly its own initializer; `about_us`
      runs `initAboutPage` (when it loads) and then `initAboutUs`; no two views share an
      initializer; an unknown name runs none. */
  lemma InitializersPerView(name: string, aboutModuleLoads: bool)
    ensures name in KnownRoutes <==> InitFor(name).Some?
    ensures name in KnownRoutes && name != "about_us" ==> Initializers(name, aboutModuleLoads) == [InitFor(name).value]
    ensures name == "about_us" ==> Initializers(name, aboutModuleLoads) == (if aboutModuleLoads then [AboutPage, AboutUs] else [AboutUs])
    ensures name !in KnownRoutes ==> Initializers(name, aboutModuleLoads) == []
    ensures forall other :: InitFor(other).Some? && InitFor(other) == InitFor(name) ==> other == name
  {
  }

  /** A child of the document head: a view stylesheet link (`link[data-view-style]`)
      or anything else. */
  datatype HeadElement = ViewStyle(href: string) | Other(tag: string)

  /** The head without its view stylesheet links, in order. */
  function WithoutViewStyles(head: seq<HeadElement>): seq<HeadElement> {
    if head == [] then []
    else WithoutViewStyles(head[..|head| - 1]) + (if head[|head| - 1].ViewStyle? then [] else [head[|head| - 1]])
  }

  function ViewStyleCount(head: seq<HeadElement>): nat {
    if head == [] then 0 else ViewStyleCount(head[..|head| - 1]) + (if head[|head| - 1].ViewStyle? then 1 else 0)
  }

  lemma {:induction false} WithoutViewStylesHasNone(head: seq<HeadElement>)
    ensures ViewStyleCount(WithoutViewStyles(head)) == 0
    ensures forall k :: 0 <= k < |WithoutViewStyles(head)| ==> !WithoutViewStyles(head)[k].ViewStyle?
  {
    if head != [] {
      WithoutViewStylesHasNone(head[..|head| - 1]);
      var w := WithoutViewStyles(head[..|head| - 1]);
      if !head[|head| - 1].ViewStyle? {
        var u := w + [head[|head| - 1]];
        assert WithoutViewStyles(head) == u;
        assert u[..|u| - 1] == w;
        assert ViewStyleCount(u) == ViewStyleCount(w) + 0;
      } else {
        assert WithoutViewStyles(head) == w;
      }
    }
  }

  /** A head with no view stylesheet link is left as it is by removing them. */
  lemma {:induction false} WithoutViewStylesKeeps(head: seq<HeadElement>)
    requires forall k :: 0 <= k < |head| ==> !head[k].ViewStyle?
    ensures WithoutViewStyles(head) == head
  {
    if head != [] {
      var init := head[..|head| - 1];
      assert forall k :: 0 <= k < |init| ==> init[k] == head[k];
      WithoutViewStylesKeeps(init);
      assert !head[|head| - 1].ViewStyle?;
      assert init + [head[|head| - 1]] == head;
    }
  }

  /** The head after `loadCSS(href)`: the other children in their order, then one new
      view stylesheet link. */
  function WithViewStyle(head: seq<HeadElement>, href: string): seq<HeadElement> {
    WithoutViewStyles(head) + [ViewStyle(href)]
  }

  /** After `loadCSS(href)` exactly one view stylesheet link is left, the last child, and
      its href is `href`; every other child stays, in order. */
  lemma LoadCSSLeavesOne(head: seq<HeadElement>, href: string)
    ensures var r := WithViewStyle(head, href);
            ViewStyleCount(r) == 1 && r[|r| - 1] == ViewStyle(href) &&
            (forall k :: 0 <= k < |r| - 1 ==> !r[k].ViewStyle?) &&
            WithoutViewStyles(r) == WithoutViewStyles(head)
  {
    WithoutViewStylesHasNone(head);
    var r := WithViewStyle(head, href);
    assert r[..|r| - 1] == WithoutViewStyles(head);
    WithoutViewStylesKeeps(WithoutViewStyles(head));
  }

  /** The text `handleRoute` mounts when loading a view fails. */
  const ErrorHtml := "<p style=\"color:#ffb4b4\">Error loading the view.</p>"

  /** The page the router writes to: the mount node's HTML and the children of `head`. */
  class Page {
    var mount: string
    var head: seq<HeadElement>

    constructor (mount: string, head: seq<HeadElement>)
      ensures this.mount == mount && this.head == head
    {
      this.mount := mount;
      this.head := head;
    }

    /** `loadCSS(href)`: remove every view stylesheet link, then append a new one. */
    method LoadCSS(href: string)
      modifies this
      ensures head == WithViewStyle(old(head), href)
      ensures mount == old(mount)
    {
      var kept := [];
      var k := 0;
      while k < |head|
        invariant 0 <= k <= |head|
        invariant kept == WithoutViewStyles(head[..k])
      {
        if !head[k].ViewStyle? {
          kept := kept + [head[k]];
        }
        assert head[..k + 1][..k] == head[..k];
        k := k + 1;
      }
      assert head[..k] == head;
      head := kept + [ViewStyle(href)];
    }

    /** `loadView(name)` given the fetched fragment (`None` when the response is not ok)
        and whether the view's if-chain initializer throws: a failed fetch throws before
        anything changes; otherwise the fragment is mounted, the view's stylesheet attached
        and the view's initializers run in order, the last of which may throw. The
        dynamically imported `initAboutPage` cannot fail the load: its errors are caught. */
    method LoadView(name: string, fragment: Option<string>, aboutModuleLoads: bool, initThrows: bool)
      returns (inits: seq<Init>, failed: bool)
      modifies this
      ensures failed <==> fragment.None? || (initThrows && InitFor(name).Some?)
      ensures fragment.None? ==> mount == old(mount) && head == old(head) && inits == []
      ensures fragment.Some? ==> mount == fragment.value && head == WithViewStyle(old(head), CssHref(name)) &&
                                 inits == Initializers(name, aboutModuleLoads)
    {
      if fragment.None? {
        return [], true;
      }
      mount := fragment.value;
      LoadCSS(CssHref(name));
      inits := Initializers(name, aboutModuleLoads);
      failed := initThrows && InitFor(name).Some?;
    }

    /** `handleRoute()` for a location hash, with the fragments the server serves keyed by
        URL and whether the route's initializer throws: the resolved view is loaded, and
        the error text is mounted when the fetch or the initializer fails. A throwing
        initializer leaves the new stylesheet in the head. */
    method HandleRoute(hash: string, served: map<string, string>, aboutModuleLoads: bool, initThrows: bool)
      returns (route: string, inits: seq<Init>)
      modifies this
      ensures route == ResolveRoute(hash)
      ensures ViewUrl(route) in served ==>
              mount == (if initThrows then ErrorHtml else served[ViewUrl(route)]) &&
              head == WithViewStyle(old(head), CssHref(route)) &&
              inits == Initializers(route, aboutModuleLoads)
      ensures ViewUrl(route) !in served ==> mount == ErrorHtml && head == old(head) && inits == []
    {
      route := ResolveRoute(hash);
      InitializersPerView(route, aboutModuleLoads);
      var url := ViewUrl(route);
      var fragment := if url in served then Some(served[url]) else None;
      var failed;
      inits, failed := LoadView(route, fragment, aboutModuleLoads, initThrows);
      if failed {
        mount := ErrorHtml;
      }
    }
  }

  /** The two storage writes of the login handler, once `loginUser` resolves. */
  datatype LoginData = LoginData(token: string, userId: string)

  /** The login click: on success `token` and `id` are stored and the hash moves to the
      dashboard; on failure (an alert) storage and hash stay. */
  function LoginClick(local: map<string, string>, reply: Result<LoginData, string>): (r: (map<string, string>, Option<string>))
    ensures reply.Failure? ==> r == (local, None)
    ensures reply.Success? ==>
            r.0.Keys == local.Keys + {"token", "id"} && r.0["token"] == reply.value.token && r.0["id"] == reply.value.userId &&
            (forall k :: k in local && k != "token" && k != "id" ==> r.0[k] == local[k]) &&
            r.1 == Some("#/dashboard")
  {
    match reply
    case Failure(_) => (local, None)
    case Success(data) => (local["token" := data.token]["id" := data.userId], Some("#/dashboard"))
  }

  /** After a successful login the router shows the dashboard. */
  lemma LoginLeadsToDashboard(local: map<string, string>, data: LoginData)
    ensures LoginClick(local, Success(data)).1 == Some("#/dashboard")
    ensures ResolveRoute(LoginClick(local, Success(data)).1.value) == "dashboard"
  {
    ResolveKnown("dashboard");
  }

  /** A line of text in the reset form's message element and its colour. */
  datatype Message = Message(text: string, color: string)

  /** What one click of the reset form leaves behind: the message shown, whether the
      reset service was called, whether the redirect to `#/login` was scheduled, and
      whether the handler ended in an uncaught error. */
  datatype ResetOutcome = ResetOutcome(message: Message, called: bool, redirect: bool, uncaught: bool)

  /** The reset reply: the `message` of the resolved data (if any), or a rejection. */
  type ResetReply = Result<Option<string>, string>

  const Mismatch := Message("Passwords do not match", "red")
  const ResetFallback := "Error resetting password"
  const ResetDone := Message("Password changed successfully. Redirecting...", "green")

  /** `data.message || "Error resetting password"` */
  function ReplyText(m: Option<string>): string {
    if IsTruthy(m) then m.value else ResetFallback
  }

  /** The reset click as written: a mismatch is reported without a call; a resolved call
      schedules the redirect but then overwrites the success text with the reply's message
      (or the error text) in red; a rejected call reaches a `catch` that reads `data`,
      which is not in scope there, so it throws and the message stays as it was. */
  function ResetClickAsWritten(newPassword: string, confirm: string, reply: ResetReply, shown: Message): (r: ResetOutcome)
    ensures r.called <==> newPassword == confirm
    ensures !r.called ==> r.message == Mismatch && !r.redirect
  {
    if newPassword != confirm then ResetOutcome(Mismatch, false, false, false)
    else match reply
      case Success(m) => ResetOutcome(Message(ReplyText(m), "red"), true, true, false)
      case Failure(_) => ResetOutcome(shown, true, false, true)
  }

  /** With the code as written, a password that was changed is reported in red as an
      error, and a failed reset leaves the form silent. */
  lemma ResetAsWrittenMisreports(p: string, shown: Message)
    ensures ResetClickAsWritten(p, p, Success(None), shown).message == Message(ResetFallback, "red")
    ensures ResetClickAsWritten(p, p, Success(None), shown).redirect
    ensures ResetClickAsWritten(p, p, Failure("expired"), shown).message == shown
    ensures ResetClickAsWritten(p, p, Failure("expired"), shown).uncaught
  {
  }

  /** The reset click as its messages evidently intend: success is reported in green
      with the redirect; a rejection is reported in red with the error's text or the
      fallback, without a redirect. */
  function ResetClick(newPassword: string, confirm: string, reply: ResetReply): (r: ResetOutcome)
    ensures r.called <==> newPassword == confirm
    ensures !r.called ==> r.message == Mismatch && !r.redirect
    ensures !r.uncaught
    ensures r.redirect <==> r.called && reply.Success?
    ensures r.message.color == "green" <==> r.redirect
  {
    if newPassword != confirm then ResetOutcome(Mismatch, false, false, false)
    else match reply
      case Success(_) => ResetOutcome(ResetDone, true, true, false)
      case Failure(e) => ResetOutcome(Message(if e != "" then e else ResetFallback, "red"), true, false, false)
  }

  /** The redirect the reset form schedules lands on the login view. */
  lemma ResetRedirectsToLogin()
    ensures ResolveRoute("#/login") == "login"
  {
    ResolveKnown("login");
  }
}
