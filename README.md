# Roster page controller

A Dafny model of the browser-side controller of the school activities page
(`src/static/app.js`). The page:

- shows the activity roster as cards;
- lets a teacher log in and out with a bearer token kept in `localStorage`;
- offers a signup form and per-participant delete buttons, and sends signups
  and removals only when a token is stored;
- reports every outcome in a single notification banner.

Once the DOM and `fetch` are removed, what remains is a small deterministic state
machine:

- `wrappers.dfy`: `Option`, used for JSON fields that may be missing and for the
  token slot.
- `roster_view.dfy` (module `RosterView`): the pure part.
  - Truthiness of the stored token.
  - The render derivation from a fetched roster to abstract cards, participant
    rows with optional delete tags, and select options.
  - The sets of delete affordances a render shows.
- `controller.dfy` (module `RosterController`): class `Controller`.
  - Its fields hold the token slot, the banner, the visibility of the login
    button, the logout button, the signup form and the login modal, the list
    content, the select options, the signup form's values, and a log of every
    request sent.
  - Each event handler is a method.
  - The server's reply is a parameter: `Response(ok, body) | TransportFailure`
    for the mutations and login, `Fetched(entries) | FetchFailed` for the
    roster.
  - A refresh that a handler triggers runs as one atomic step that consumes its
    own roster reply.
  - The `forEach` of `fetchActivities` is the loop in `RenderEntries`.
- `scenarios.dfy` (module `Scenarios`): walk-throughs that drive a fresh
  controller through several actions.
  - An anonymous visit.
  - A teacher logging in and removing a participant.
  - A signup attempt without a token.
  - A logout while the roster cannot be fetched, and a signup refused after it.

The class invariant `Controller.Valid` says three things:

- No credentialed request was ever sent without a non-empty bearer token.
- The login button and the signup form share one visibility, and the logout
  button has the opposite one.
- Whenever cards are on screen, they are exactly the last fully rendered roster
  rendered for the current token, and the auth controls match that token.

A roster entry whose record has no participant list makes the render throw part
way through the loop. When that happens:

- The options appended before it stay in the select.
- The list shows the failure text.
- The auth controls are not re-derived.

The model keeps all of this.

## Model

| member | source | states |
|---|---|---|
| `RosterView.IsTeacherLoggedIn` | src/static/app.js:20-22 | logged in exactly when a token is stored and it is not the empty string; nothing else is consulted |
| `RosterView.Or` | src/static/app.js:136 | `detail \|\| fallback`: the server's field when it is present and non-empty, the fallback otherwise; never empty when the fallback is not |
| `RosterView.RenderablePrefixSpec` | src/static/app.js:48-52 | the entries a render gets through are a prefix of the roster, all renderable, and end either at the roster's end or at an entry without a participant list |
| `RosterView.RenderablePrefixUnique` | src/static/app.js:48-52 | any renderable prefix that is followed by the end or by an unrenderable entry is the one the render gets through |
| `RosterView.RenderableAll` | src/static/app.js:48-93 | the render finishes without throwing exactly when every entry has a participant list |
| `RosterView.ParticipantRows` | src/static/app.js:55-64 | one row per participant in list order, with the participant's email; a row carries the delete tag (activity, email) when logged in and no button otherwise |
| `RosterView.RenderCard` | src/static/app.js:52-84 | a card copies name, description and schedule; availability is max participants minus the current count; the "No participants yet" placeholder appears exactly when the list is empty; otherwise one row per participant in order, tagged (name, email) exactly when logged in |
| `RosterView.RenderCards` | src/static/app.js:48-86 | one card per entry |
| `RosterView.RenderCardsAt` | src/static/app.js:48-86 | the i-th card is the card of the i-th entry alone: cards follow roster order and each is recomputed from its own record |
| `RosterView.ActivityOptions` | src/static/app.js:88-92 | one option per entry |
| `RosterView.SelectOptionsAt` | src/static/app.js:45-92 | the select is the placeholder followed by one option per entry, named after it, in roster order |
| `RosterView.CardTagsOfRender` | src/static/app.js:55-74 | a rendered card shows one delete tag per participant when logged in and none when logged out |
| `RosterView.DeleteTagsExactlyWhenLoggedIn` | src/static/app.js:55-64 | the delete tags on a rendered roster are all of its (activity, email) registrations when logged in and none otherwise |
| `RosterView.ShownTagIsRegistration` | src/static/app.js:55-61 | a delete tag on screen implies a token was stored at render time and names a participant of that activity in the rendered roster |
| `RosterController.RefreshesAppend` | src/static/app.js:134 | refreshes in a concatenated request log add up, which gives the refresh counts the handlers promise |
| `RosterController.MutationNotice` | src/static/app.js:129-141 | after an unregister or signup: the server's message (success) on an OK reply; the server's detail, else "An error occurred" (error) on a rejection; the handler's own failure text on a transport or decode failure |
| `RosterController.LoginRefusal` | src/static/app.js:205-216 | a login that yields no token shows an error: the server's detail, else "Invalid credentials"; "Failed to log in. Please try again." when the request or decode failed |
| `RosterController.RenderEntries` | src/static/app.js:44-93 | the `forEach`: it completes exactly when every entry is renderable, and then yields exactly the rendered cards; the options are the placeholder plus one per entry the render got through |
| `RosterController.Controller.constructor` | src/static/app.js:233-235 | page start: stored token kept, auth controls derived from it, one roster fetch, no banner, modal hidden |
| `RosterController.Controller.ShowMessage` | src/static/app.js:13-16 | the banner holds the newest notification and nothing older |
| `RosterController.Controller.UpdateUIForAuth` | src/static/app.js:24-35 | logged in: login button and signup form hidden, logout button shown; logged out: the inverse |
| `RosterController.Controller.Refresh` | src/static/app.js:38-106 | one GET appended to the log. A failed fetch or decode leaves only the failure text, and the options and auth controls as they were. Otherwise the select is rebuilt from scratch; a complete render shows exactly the fetched roster's cards and re-derives the auth controls |
| `RosterController.Controller.Rebuild` | src/static/app.js:44-100 | the successful part of a refresh: options rebuilt from scratch and the select reset to the placeholder; the cards of the roster, or the failure text when an entry throws, in which case the auth controls are untouched |
| `RosterController.Controller.ShowCards` | src/static/app.js:86-100 | the rendered cards go on screen, then the auth controls are laid out for the current token |
| `RosterController.Controller.Unregister` | src/static/app.js:109-142 | without a token: no request and "Teacher login required…" (error). With one: exactly one DELETE carrying the token, the banner from `MutationNotice`, and a refresh exactly when the reply is OK (refresh count +1 on success, +0 otherwise); without a refresh, the list, options and auth controls stay as they were |
| `RosterController.Controller.Signup` | src/static/app.js:145-180 | as for unregister, for the activity and email read from the form; an OK reply also resets the form before the refresh |
| `RosterController.Controller.FillSignupForm` | src/static/app.js:148-149 | the form's select takes one of the offered option values and the email field any text |
| `RosterController.Controller.OpenLogin` | src/static/app.js:183-185 | the login modal becomes visible |
| `RosterController.Controller.CloseLogin` | src/static/app.js:187-189 | the login modal becomes hidden |
| `RosterController.Controller.Login` | src/static/app.js:191-217 | always one POST /login. An OK reply with a truthy token stores that token, hides the modal, shows "Logged in as teacher" (success) and refreshes. Any other reply leaves token, modal, list, options and auth controls unchanged and shows `LoginRefusal` |
| `RosterController.Controller.Logout` | src/static/app.js:219-231 | no token: nothing at all happens. Otherwise one POST /logout with the token; the token is cleared whatever the server answers, "Logged out" (info) is shown, and the roster is refreshed |
| `Scenarios.AnonymousVisit` | src/static/app.js:52-80 | with no token, a one-activity roster renders "9 spots left" (10 places, 1 participant), one read-only row, the login button and the signup form |
| `Scenarios.TeacherLogsIn` | src/static/app.js:205-209 | after a successful login, the refreshed roster carries a delete tag for the existing participant |
| `Scenarios.TeacherRemovesParticipant` | src/static/app.js:131-134 | an OK unregister shows the server message and the refreshed card shows the "No participants yet" placeholder with its spot returned |
| `Scenarios.SignupWithoutToken` | src/static/app.js:151-155 | an empty stored token sends nothing and shows the login-required notice |
| `Scenarios.LogoutDuringOutage` | src/static/app.js:219-231 | logout with a failed refresh clears the token but leaves the logout button visible and the login button hidden, because the failure path skips `updateUIForAuth` |
| `Scenarios.StaleLayoutAfterRefusedSignup` | src/static/app.js:151-155 | after that logout, a signup is refused without any request and the stale layout (logout button shown, login button hidden) survives |

## Left out

- DOM construction, `innerHTML` templates and event-listener wiring. Cards, rows
  and options are abstract datatypes.
- HTML escaping. Names, descriptions and emails are interpolated unescaped into
  HTML at src/static/app.js:59 and :77-79. The model treats them as opaque
  strings, so markup injection is not captured.
- `fetch`, HTTP status codes, `response.json()` and `encodeURIComponent`. A
  reply is a parameter.
  - A rejected fetch and an undecodable body are both `TransportFailure`
    (respectively `FetchFailed`).
  - The URL encoding of activity and email is not modelled. A request records
    the raw activity, email and bearer token.
- JSON values of unexpected types. A roster record whose `details` lack a
  participant list is modelled; it is the case that makes the render throw.
  - A non-numeric `max_participants` (which would show `NaN`) is not modelled.
  - Non-string fields and a roster payload that is not an object are not
    modelled.
- `localStorage` persistence across reloads. The token slot is a field, and the
  constructor takes the value stored by an earlier visit.
- The 5-second `setTimeout` that hides the banner (src/static/app.js:17). The
  banner keeps the latest notification until the next one replaces it.
- Overlapping refreshes whose replies race (the last reply wins). Each refresh
  is one atomic step inside the handler that triggers it.
- `console.error` logging on the failure paths.
- Re-attaching click listeners to the delete buttons (src/static/app.js:96-98).
  - `Controller.Unregister` accepts any (activity, email).
  - `Scenarios.TeacherLogsIn` and `RosterView.ShownTagIsRegistration` state that
    a tag on screen names a rendered registration.
- The password and username inputs. `Controller.Login` takes them as
  parameters.
- `src/static/index.html` is not part of this model. The initial markup is
  assumed to have:
  - only the placeholder option in the select;
  - a hidden login modal;
  - no banner;
  - an empty form.
- The Python backend and `tests/test_admin_mode.py` are not part of this model.
  They hold no client logic. Only the server message texts used in the
  scenarios come from them.
- The ordering of `Object.entries` (src/static/app.js:48). A roster is the
  sequence of entries in the order that call yields them. The model does not
  capture how JavaScript derives that order from the JSON text: integer-like
  activity names come first in ascending numeric order, and a duplicated key
  collapses into one entry holding the last value at the first key's position.
  "Roster order" in the contracts means that derived order, not the byte order
  of the server's reply.

## Behaviour kept as written

- The auth controls after a failed refresh.
  - A re-derivation after every refresh would be natural to expect.
  - The code runs `updateUIForAuth` only at start-up and at the end of a
    complete render (src/static/app.js:100, 234).
  - The model follows the code: a failed refresh leaves the controls as they
    were, and so does every handler path that does not refresh.
    `Scenarios.LogoutDuringOutage` shows the consequence.
- The signup form's visibility. It is shown when logged out and hidden when
  logged in (src/static/app.js:29, 33), although the handler refuses to act
  without a token. The model keeps this layout.
- A missing `message` field in an OK reply is shown as empty banner text. This
  is what assigning a missing value to `textContent` displays.
