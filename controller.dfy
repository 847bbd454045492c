/**
 * The stateful part of the roster page (src/static/app.js): the credential slot,
 * the notification banner, the visibility of the auth controls, the rendered
 * roster and the requests sent. Every network call is replaced by the reply it
 * gets, passed in as a parameter; a refresh a handler triggers is one atomic
 * step that consumes its own roster reply.
 */
module RosterController {
  import opened Wrappers
  import opened RosterView

  // ---------------------------------------------------------------------------
  // Replies, requests and notifications
  // ---------------------------------------------------------------------------

  /** The JSON fields a handler reads from a reply body. */
  datatype Body = Body(message: Option<string>, detail: Option<string>, token: Option<string>)

  /** The outcome of one `fetch` + `response.json()`. A rejected fetch and an undecodable body are both `TransportFailure`. */
  datatype Reply = Response(ok: bool, body: Body) | TransportFailure

  /** The outcome of `GET /activities` + `response.json()`. */
  datatype RosterReply = Fetched(entries: seq<Entry>) | FetchFailed

  /** A request the page sends; mutating ones carry the bearer token from the credential slot. */
  datatype Request =
    | GetActivities
    | SignupRequest(activity: string, email: string, bearer: string)
    | UnregisterRequest(activity: string, email: string, bearer: string)
    | LoginRequest(username: string, password: string)
    | LogoutRequest(bearer: string)

  /** Requests that need a credential carry a non-empty one. */
  predicate Authorized(q: Request) {
    match q
    case SignupRequest(_, _, bearer) => bearer != ""
    case UnregisterRequest(_, _, bearer) => bearer != ""
    case LogoutRequest(bearer) => bearer != ""
    case _ => true
  }

  /** Every request in the log that needs a credential carries one. */
  predicate AllAuthorized(log: seq<Request>) {
    forall i :: 0 <= i < |log| ==> Authorized(log[i])
  }

  /** Number of roster refreshes in a request log. */
  function Refreshes(log: seq<Request>): nat {
    if log == [] then 0 else Refreshes(log[..|log| - 1]) + (if log[|log| - 1] == GetActivities then 1 else 0)
  }

  lemma {:induction false} RefreshesAppend(a: seq<Request>, b: seq<Request>)
    ensures Refreshes(a + b) == Refreshes(a) + Refreshes(b)
  {
    if b != [] {
      var n := |b| - 1;
      assert (a + b)[..|a + b| - 1] == a + b[..n];
      assert (a + b)[|a + b| - 1] == b[n];
      RefreshesAppend(a, b[..n]);
    } else {
      assert a + b == a;
    }
  }

  /** The `className` of the banner. */
  datatype Severity = Info | Success | Error

  datatype Notification = Notification(text: string, severity: Severity)

  const LoginRequired := Notification("Teacher login required to perform this action.", Error)
  const GenericError := "An error occurred"
  const UnregisterFailed := Notification("Failed to unregister. Please try again.", Error)
  const SignupFailed := Notification("Failed to sign up. Please try again.", Error)
  const LoggedInNotice := Notification("Logged in as teacher", Success)
  const InvalidCredentials := "Invalid credentials"
  const LoginFailed := Notification("Failed to log in. Please try again.", Error)
  const LoggedOutNotice := Notification("Logged out", Info)

  /** Banner text for `result.message`: a missing message shows as empty text. */
  function MessageText(body: Body): string {
    body.message.GetOr("")
  }

  /**
   * The banner after a signup or unregister request got `reply`: the server's
   * message on success, its detail (or the generic text) on rejection, and the
   * handler's own failure notice when there was no usable reply.
   */
  function MutationNotice(reply: Reply, failed: Notification): (n: Notification)
    ensures reply.Response? && reply.ok ==> n == Notification(MessageText(reply.body), Success)
    ensures reply.Response? && !reply.ok ==> n.severity == Error && n.text != ""
    ensures reply.Response? && !reply.ok && Truthy(reply.body.detail) ==> n.text == reply.body.detail.value
    ensures reply.Response? && !reply.ok && !Truthy(reply.body.detail) ==> n.text == GenericError
    ensures reply.TransportFailure? ==> n == failed
  {
    match reply
    case TransportFailure => failed
    case Response(ok, body) =>
      if ok then Notification(MessageText(body), Success)
      else Notification(Or(body.detail, GenericError), Error)
  }

  /** A login reply establishes a session exactly when it is OK and carries a truthy token. */
  predicate GrantsToken(reply: Reply) {
    reply.Response? && reply.ok && Truthy(reply.body.token)
  }

  /** The banner after a login attempt that did not yield a token. */
  function LoginRefusal(reply: Reply): (n: Notification)
    requires !GrantsToken(reply)
    ensures n.severity == Error && n.text != ""
    ensures reply.TransportFailure? ==> n == LoginFailed
    ensures reply.Response? ==> n.text == Or(reply.body.detail, InvalidCredentials)
  {
    match reply
    case TransportFailure => LoginFailed
    case Response(_, body) => Notification(Or(body.detail, InvalidCredentials), Error)
  }

  // ---------------------------------------------------------------------------
  // The controller
  // ---------------------------------------------------------------------------

  class Controller {
    /** The `localStorage` "token" slot. */
    var token: Option<string>
    /** The banner; the latest notification replaces any earlier one. */
    var message: Option<Notification>
    var loginButtonHidden: bool
    var logoutButtonHidden: bool
    var signupFormHidden: bool
    var loginModalHidden: bool
    /** `#activities-list` and the options of `#activity`. */
    var list: ListView
    var options: seq<SelectOption>
    /** The values of the signup form's `#activity` select and `#email` input. */
    var formActivity: string
    var formEmail: string
    /** Every request issued, in order. */
    var sent: seq<Request>
    /** The roster of the last refresh that rendered completely. */
    ghost var shownRoster: seq<Entry>

    function LoggedIn(): bool
      reads this`token
    {
      IsTeacherLoggedIn(token)
    }

    /** The login/logout buttons and the signup form agree with the stored token. */
    ghost predicate AuthUIMatches()
      reads this`token, this`loginButtonHidden, this`logoutButtonHidden, this`signupFormHidden
    {
      loginButtonHidden == LoggedIn() && logoutButtonHidden == !LoggedIn() && signupFormHidden == LoggedIn()
    }

    /**
     * The invariant every handler keeps: no credentialed request went out without a
     * credential; the auth controls are always in one of the two consistent layouts;
     * and whenever cards are on screen they are exactly the last fetched roster
     * rendered for the current credential, with matching auth controls.
     */
    ghost predicate Valid()
      reads this
    {
      && Consistent()
      && (list.Cards? ==>
            WellFormed(shownRoster) && list.cards == RenderCards(shownRoster, LoggedIn()) && AuthUIMatches())
    }

    /** The parts of `Valid` that hold between any two steps of a handler. */
    ghost predicate Consistent()
      reads this
    {
      && AllAuthorized(sent)
      && loginButtonHidden == signupFormHidden
      && loginButtonHidden != logoutButtonHidden
    }

    /**
     * What a refresh that got `reply` leaves on screen, given the options and the
     * login-button visibility before it (by `Consistent`, that one flag fixes the
     * other two auth controls).
     */
    ghost predicate RefreshShows(reply: RosterReply, prevOptions: seq<SelectOption>, prevLoginHidden: bool)
      reads this
    {
      match reply
      case FetchFailed =>
        list == LoadFailed && options == prevOptions && loginButtonHidden == prevLoginHidden
      case Fetched(entries) =>
        && options == SelectOptions(RenderablePrefix(entries))
        && (WellFormed(entries) ==>
              list == Cards(RenderCards(entries, LoggedIn())) && AuthUIMatches() && shownRoster == entries)
        && (!WellFormed(entries) ==> list == LoadFailed && loginButtonHidden == prevLoginHidden)
    }

    /**
     * Page start-up: the token persisted from an earlier visit, then
     * `updateUIForAuth()` and the first refresh. The static markup is assumed to
     * start with a hidden modal, no banner, an empty form and only the placeholder option.
     */
    constructor (stored: Option<string>, roster: RosterReply)
      ensures Valid()
      ensures token == stored && message == None && loginModalHidden
      ensures formEmail == "" && formActivity == ""
      ensures sent == [GetActivities]
      ensures roster.FetchFailed? ==> list == LoadFailed && options == [Placeholder]
      ensures roster.Fetched? ==> options == SelectOptions(RenderablePrefix(roster.entries))
      ensures roster.Fetched? && WellFormed(roster.entries) ==>
        list == Cards(RenderCards(roster.entries, IsTeacherLoggedIn(stored)))
      ensures roster.Fetched? && !WellFormed(roster.entries) ==> list == LoadFailed
      ensures AuthUIMatches()
    {
      token := stored;
      message := None;
      loginModalHidden := true;
      list := LoadFailed;
      options := [Placeholder];
      formActivity, formEmail := "", "";
      sent := [];
      shownRoster := [];
      loginButtonHidden, logoutButtonHidden, signupFormHidden := false, true, false;
      new;
      UpdateUIForAuth();
      Refresh(roster);
    }

    /** `showMessage(text, type)`: the banner shows this notification and nothing older. */
    method ShowMessage(n: Notification)
      modifies this`message
      ensures message == Some(n)
    {
      message := Some(n);
    }

    /** `updateUIForAuth()`: lay out the auth controls for the stored token. */
    method UpdateUIForAuth()
      modifies this`loginButtonHidden, this`logoutButtonHidden, this`signupFormHidden
      ensures AuthUIMatches()
    {
      if LoggedIn() {
        loginButtonHidden, logoutButtonHidden, signupFormHidden := true, false, true;
      } else {
        loginButtonHidden, logoutButtonHidden, signupFormHidden := false, true, false;
      }
    }

    /**
     * `fetchActivities()`: one GET; a failed fetch or an undecodable body leaves
     * only the failure text in the list, and everything else as it was.
     */
    method Refresh(reply: RosterReply)
      requires Consistent()
      modifies this`sent, this`options, this`formActivity, this`list, this`shownRoster
      modifies this`loginButtonHidden, this`logoutButtonHidden, this`signupFormHidden
      ensures Valid()
      ensures RefreshShows(reply, old(options), old(loginButtonHidden))
      ensures sent == old(sent) + [GetActivities]
      ensures token == old(token) && message == old(message) && loginModalHidden == old(loginModalHidden)
      ensures formEmail == old(formEmail)
      ensures formActivity == if reply.Fetched? then "" else old(formActivity)
    {
      sent := sent + [GetActivities];
      match reply
      case FetchFailed =>
        list := LoadFailed;
      case Fetched(entries) =>
        Rebuild(entries);
    }

    /**
     * The successful part of `fetchActivities()`: a full rebuild of the cards and
     * the select, entry by entry in `Object.entries` order. An entry the render cannot
     * read aborts the loop: the list shows the failure text, the options
     * appended so far stay, and the auth controls are left as they were.
     * Otherwise `updateUIForAuth()` runs.
     */
    method Rebuild(entries: seq<Entry>)
      requires Consistent()
      modifies this`options, this`formActivity, this`list, this`shownRoster
      modifies this`loginButtonHidden, this`logoutButtonHidden, this`signupFormHidden
      ensures Valid()
      ensures RefreshShows(Fetched(entries), old(options), old(loginButtonHidden))
      ensures formActivity == ""
    {
      var cards, opts, complete := RenderEntries(entries, LoggedIn());
      options, formActivity := opts, "";
      if !complete {
        list := LoadFailed;
      } else {
        ShowCards(entries, cards);
      }
    }

    /** The end of a rebuild that rendered every entry: the cards go on screen, then `updateUIForAuth()`. */
    method ShowCards(entries: seq<Entry>, cards: seq<Card>)
      requires Consistent()
      requires WellFormed(entries) && cards == RenderCards(entries, LoggedIn())
      modifies this`list, this`shownRoster, this`loginButtonHidden, this`logoutButtonHidden, this`signupFormHidden
      ensures Valid() && AuthUIMatches()
      ensures list == Cards(cards) && shownRoster == entries
    {
      list, shownRoster := Cards(cards), entries;
      UpdateUIForAuth();
    }

    /**
     * `handleUnregister`: refused locally without a token; otherwise one DELETE
     * carrying the token, a banner from the reply, and a refresh exactly when the
     * reply is OK.
     */
    method Unregister(activity: string, email: string, reply: Reply, roster: RosterReply)
      requires Valid()
      modifies this`sent, this`message, this`options, this`formActivity, this`formEmail, this`list, this`shownRoster
      modifies this`loginButtonHidden, this`logoutButtonHidden, this`signupFormHidden
      ensures Valid()
      ensures formEmail == old(formEmail)
      ensures !old(LoggedIn()) ==>
        && sent == old(sent) && message == Some(LoginRequired)
        && list == old(list) && options == old(options) && formActivity == old(formActivity)
      ensures old(LoggedIn()) ==> message == Some(MutationNotice(reply, UnregisterFailed))
      ensures old(LoggedIn()) && reply.Response? && reply.ok ==>
        sent == old(sent) + [UnregisterRequest(activity, email, old(token).value), GetActivities]
        && RefreshShows(roster, old(options), old(loginButtonHidden)) && formActivity == (if roster.Fetched? then "" else old(formActivity))
      ensures !(reply.Response? && reply.ok) ==>
        list == old(list) && options == old(options) && formActivity == old(formActivity)
        && (old(LoggedIn()) ==> sent == old(sent) + [UnregisterRequest(activity, email, old(token).value)])
      ensures !(old(LoggedIn()) && reply.Response? && reply.ok) ==> loginButtonHidden == old(loginButtonHidden)
      ensures Refreshes(sent) == Refreshes(old(sent)) + if old(LoggedIn()) && reply.Response? && reply.ok then 1 else 0
    {
      if !LoggedIn() {
        ShowMessage(LoginRequired);
        return;
      }
      var request := UnregisterRequest(activity, email, token.value);
      sent := sent + [request];
      ShowMessage(MutationNotice(reply, UnregisterFailed));
      if reply.Response? && reply.ok {
        Refresh(roster);
        RefreshesAppend(old(sent), [request, GetActivities]);
      } else {
        RefreshesAppend(old(sent), [request]);
      }
    }

    /**
     * The signup form's submit handler: reads the form, refused locally without a
     * token; otherwise one POST carrying the token, a banner from the reply, and
     * on an OK reply a form reset and a refresh.
     */
    method Signup(reply: Reply, roster: RosterReply)
      requires Valid()
      modifies this`sent, this`message, this`options, this`formActivity, this`formEmail, this`list, this`shownRoster
      modifies this`loginButtonHidden, this`logoutButtonHidden, this`signupFormHidden
      ensures Valid()
      ensures !old(LoggedIn()) ==>
        && sent == old(sent) && message == Some(LoginRequired)
        && list == old(list) && options == old(options)
        && formActivity == old(formActivity) && formEmail == old(formEmail)
      ensures old(LoggedIn()) ==> message == Some(MutationNotice(reply, SignupFailed))
      ensures old(LoggedIn()) && reply.Response? && reply.ok ==>
        sent == old(sent) + [SignupRequest(old(formActivity), old(formEmail), old(token).value), GetActivities]
        && RefreshShows(roster, old(options), old(loginButtonHidden)) && formActivity == "" && formEmail == ""
      ensures !(reply.Response? && reply.ok) ==>
        list == old(list) && options == old(options)
        && formActivity == old(formActivity) && formEmail == old(formEmail)
        && (old(LoggedIn()) ==> sent == old(sent) + [SignupRequest(old(formActivity), old(formEmail), old(token).value)])
      ensures !(old(LoggedIn()) && reply.Response? && reply.ok) ==> loginButtonHidden == old(loginButtonHidden)
      ensures Refreshes(sent) == Refreshes(old(sent)) + if old(LoggedIn()) && reply.Response? && reply.ok then 1 else 0
    {
      var email, activity := formEmail, formActivity;
      if !LoggedIn() {
        ShowMessage(LoginRequired);
        return;
      }
      var request := SignupRequest(activity, email, token.value);
      sent := sent + [request];
      ShowMessage(MutationNotice(reply, SignupFailed));
      if reply.Response? && reply.ok {
        formActivity, formEmail := "", "";
        Refresh(roster);
        RefreshesAppend(old(sent), [request, GetActivities]);
      } else {
        RefreshesAppend(old(sent), [request]);
      }
    }

    /** The user picks an activity and types an email into the signup form. */
    method FillSignupForm(activity: string, email: string)
      requires exists o :: o in options && o.Value() == activity
      modifies this`formActivity, this`formEmail
      ensures formActivity == activity && formEmail == email
    {
      formActivity, formEmail := activity, email;
    }

    /** The login button's click handler. */
    method OpenLogin()
      modifies this`loginModalHidden
      ensures !loginModalHidden
    {
      loginModalHidden := false;
    }

    /** The modal's close control. */
    method CloseLogin()
      modifies this`loginModalHidden
      ensures loginModalHidden
    {
      loginModalHidden := true;
    }

    /**
     * The login form's submit handler: one POST /login; a token is stored only
     * from an OK reply carrying a truthy token, which also closes the modal,
     * announces the login and refreshes. Otherwise the token and the modal stay
     * as they were and the banner shows an error.
     */
    method Login(username: string, password: string, reply: Reply, roster: RosterReply)
      requires Valid()
      modifies this
      ensures Valid()
      ensures formEmail == old(formEmail)
      ensures GrantsToken(reply) ==>
        && token == reply.body.token && LoggedIn() && loginModalHidden && message == Some(LoggedInNotice)
        && sent == old(sent) + [LoginRequest(username, password), GetActivities]
        && RefreshShows(roster, old(options), old(loginButtonHidden)) && formActivity == (if roster.Fetched? then "" else old(formActivity))
      ensures !GrantsToken(reply) ==>
        && token == old(token) && loginModalHidden == old(loginModalHidden)
        && message == Some(LoginRefusal(reply))
        && sent == old(sent) + [LoginRequest(username, password)]
        && list == old(list) && options == old(options) && formActivity == old(formActivity)
        && loginButtonHidden == old(loginButtonHidden)
    {
      sent := sent + [LoginRequest(username, password)];
      if GrantsToken(reply) {
        token := reply.body.token;
        loginModalHidden := true;
        ShowMessage(LoggedInNotice);
        Refresh(roster);
      } else {
        ShowMessage(LoginRefusal(reply));
      }
    }

    /**
     * The logout button's click handler: nothing at all without a token;
     * otherwise a best-effort POST /logout whose outcome is ignored (so no reply
     * is a parameter), then the token is removed, "Logged out" is shown and the
     * roster is refreshed.
     */
    method Logout(roster: RosterReply)
      requires Valid()
      modifies this
      ensures Valid()
      ensures loginModalHidden == old(loginModalHidden) && formEmail == old(formEmail)
      ensures !old(LoggedIn()) ==>
        && token == old(token) && message == old(message) && sent == old(sent)
        && list == old(list) && options == old(options) && formActivity == old(formActivity)
        && loginButtonHidden == old(loginButtonHidden) && logoutButtonHidden == old(logoutButtonHidden)
      ensures old(LoggedIn()) ==>
        && token == None && !LoggedIn() && message == Some(LoggedOutNotice)
        && sent == old(sent) + [LogoutRequest(old(token).value), GetActivities]
        && RefreshShows(roster, old(options), old(loginButtonHidden)) && formActivity == (if roster.Fetched? then "" else old(formActivity))
    {
      if !LoggedIn() {
        return;
      }
      sent := sent + [LogoutRequest(token.value)];
      token := None;
      ShowMessage(LoggedOutNotice);
      Refresh(roster);
    }
  }

  /**
   * The `forEach` of `fetchActivities`: appends one card and one option per
   * entry, in `Object.entries` order, after the placeholder option, until an entry
   * without a participant list throws. `complete` says that none threw.
   */
  method RenderEntries(entries: seq<Entry>, loggedIn: bool) returns (cards: seq<Card>, opts: seq<SelectOption>, complete: bool)
    ensures complete <==> WellFormed(entries)
    ensures complete ==> cards == RenderCards(entries, loggedIn)
    ensures opts == SelectOptions(RenderablePrefix(entries))
  {
    cards, opts := [], [Placeholder];
    var i := 0;
    while i < |entries|
      invariant 0 <= i <= |entries|
      invariant WellFormed(entries[..i])
      invariant cards == RenderCards(entries[..i], loggedIn)
      invariant opts == SelectOptions(entries[..i])
    {
      var entry := entries[i];
      if entry.details.None? {
        break;
      }
      assert entries[..i + 1][..i] == entries[..i];
      assert ActivityOptions(entries[..i + 1]) == ActivityOptions(entries[..i]) + [ActivityOption(entry.name)];
      cards := cards + [RenderCard(entry.name, entry.details.value, loggedIn)];
      opts := opts + [ActivityOption(entry.name)];
      i := i + 1;
    }
    RenderablePrefixUnique(entries, i);
    RenderableAll(entries);
    complete := i == |entries|;
    if complete {
      assert entries[..i] == entries;
    }
  }
}
