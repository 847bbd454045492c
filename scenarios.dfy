/**
 * Walk-throughs of the page: each builds a fresh controller, drives it through
 * user actions with the server's replies given explicitly, and states what the
 * page then shows.
 */
module Scenarios {
  import opened Wrappers
  import opened RosterView
  import opened RosterController

  const ChessClub := Activity("Learn strategies and compete in chess tournaments", "Mon", 10, ["a@x.com"])
  const EmptyChessClub := Activity("Learn strategies and compete in chess tournaments", "Mon", 10, [])

  /** A visitor without a token sees availability and read-only rows, and the signup form. */
  method AnonymousVisit() returns (c: Controller)
    ensures !c.LoggedIn() && !c.loginButtonHidden && c.logoutButtonHidden && !c.signupFormHidden
    ensures c.list == Cards([Card("Chess Club", ChessClub.description, "Mon", 9, Participants([Row("a@x.com", None)]))])
    ensures c.options == [Placeholder, ActivityOption("Chess Club")]
  {
    var roster := [Entry("Chess Club", Some(ChessClub))];
    c := new Controller(None, Fetched(roster));
    RenderCardsAt(roster, false, 0);
    var rows := RenderCard("Chess Club", ChessClub, false).participants.rows;
    assert rows == [Row("a@x.com", None)];
    SelectOptionsAt(roster, 0);
  }

  /** A teacher logs in; the refreshed roster offers a delete button for the existing participant. */
  method TeacherLogsIn() returns (c: Controller)
    ensures fresh(c)
    ensures c.Valid() && c.LoggedIn() && c.token == Some("t0k") && c.loginModalHidden
    ensures c.loginButtonHidden && !c.logoutButtonHidden && c.signupFormHidden
    ensures c.message == Some(LoggedInNotice)
    ensures c.sent == [GetActivities, LoginRequest("teacher", "secret"), GetActivities]
    ensures c.list.Cards? && DeleteTag("Chess Club", "a@x.com") in DeleteTags(c.list.cards)
  {
    var roster := [Entry("Chess Club", Some(ChessClub))];
    c := new Controller(None, Fetched(roster));
    c.OpenLogin();
    c.Login("teacher", "secret", Response(true, Body(None, None, Some("t0k"))), Fetched(roster));
    DeleteTagsExactlyWhenLoggedIn(roster, true);
    assert roster[0].details.value.participants[0] == "a@x.com";
    assert DeleteTag("Chess Club", "a@x.com") in Registrations(roster);
  }

  /**
   * The logged-in teacher removes that participant; the refreshed card shows
   * the empty placeholder and its spots are back.
   */
  method TeacherRemovesParticipant() returns (c: Controller)
    ensures c.LoggedIn() && c.loginButtonHidden && !c.logoutButtonHidden && c.signupFormHidden
    ensures c.list == Cards([Card("Chess Club", ChessClub.description, "Mon", 10, NoParticipantsYet)])
    ensures c.message == Some(Notification("Unregistered a@x.com from Chess Club", Success))
    ensures c.sent == [GetActivities, LoginRequest("teacher", "secret"), GetActivities,
                       UnregisterRequest("Chess Club", "a@x.com", "t0k"), GetActivities]
  {
    var after := [Entry("Chess Club", Some(EmptyChessClub))];
    c := TeacherLogsIn();
    c.Unregister("Chess Club", "a@x.com",
                 Response(true, Body(Some("Unregistered a@x.com from Chess Club"), None, None)), Fetched(after));
    RenderCardsAt(after, true, 0);
  }

  /** Without a token, a signup attempt sends nothing and asks for a login. */
  method SignupWithoutToken() returns (c: Controller)
    ensures c.sent == [GetActivities]
    ensures c.message == Some(LoginRequired)
  {
    c := new Controller(Some(""), FetchFailed);
    assert c.options[0].Value() == "";
    c.FillSignupForm("", "b@x.com");
    c.Signup(Response(true, Body(Some("Signed up b@x.com for Chess Club"), None, None)), FetchFailed);
  }

  /**
   * Logging out while the roster cannot be fetched: the token is gone, but the
   * failed refresh does not re-derive the auth controls, so the logout button
   * stays visible and the login button hidden.
   */
  method LogoutDuringOutage() returns (c: Controller)
    ensures fresh(c) && c.Valid()
    ensures !c.LoggedIn() && c.token == None
    ensures !c.logoutButtonHidden && c.loginButtonHidden && c.list == LoadFailed
    ensures c.message == Some(LoggedOutNotice)
    ensures c.sent == [GetActivities, LogoutRequest("t0k"), GetActivities]
  {
    c := new Controller(Some("t0k"), Fetched([]));
    c.Logout(FetchFailed);
  }

  /**
   * After that logout, a signup attempt is refused locally and the stale
   * layout stays: the logout button is still shown although no token is stored.
   */
  method StaleLayoutAfterRefusedSignup() returns (c: Controller)
    ensures !c.LoggedIn() && !c.logoutButtonHidden && c.loginButtonHidden
    ensures c.message == Some(LoginRequired) && c.sent == [GetActivities, LogoutRequest("t0k"), GetActivities]
  {
    c := LogoutDuringOutage();
    c.Signup(Response(true, Body(None, None, None)), FetchFailed);
  }
}
