/**
 * The pure part of the roster page (src/static/app.js): when the teacher counts as
 * logged in, and how one fetched roster becomes activity cards and select options.
 * The DOM and its HTML templates are abstracted into the datatypes below.
 */
module RosterView {
  import opened Wrappers

  // ---------------------------------------------------------------------------
  // Credentials and JavaScript truthiness
  // ---------------------------------------------------------------------------

  /** JavaScript truthiness of a string-or-missing value: absent and "" are falsy. */
  predicate Truthy(s: Option<string>) {
    s.Some? && s.value != ""
  }

  /** `!!localStorage.getItem("token")`: the stored token is the only thing looked at. */
  function IsTeacherLoggedIn(token: Option<string>): (b: bool)
    ensures b <==> token != None && token != Some("")
  {
    Truthy(token)
  }

  /** `s || fallback` for a string field of a server reply. */
  function Or(s: Option<string>, fallback: string): (t: string)
    ensures Truthy(s) ==> t == s.value
    ensures !Truthy(s) ==> t == fallback
    ensures fallback != "" ==> t != ""
  {
    if Truthy(s) then s.value else fallback
  }

  // ---------------------------------------------------------------------------
  // What the server sends
  // ---------------------------------------------------------------------------

  /** The record the registry service returns for one activity. */
  datatype Activity = Activity(
    description: string,
    schedule: string,
    maxParticipants: int,
    participants: seq<string>)

  /**
   * One `[name, details]` pair of `Object.entries(activities)`, in the order that
   * call lists them.
   * `details` is None when the record has no participant list, which makes the
   * render throw when it reads the list's length.
   */
  datatype Entry = Entry(name: string, details: Option<Activity>)

  /** Every entry can be rendered. */
  predicate WellFormed(roster: seq<Entry>) {
    forall i :: 0 <= i < |roster| ==> roster[i].details.Some?
  }

  /** The entries the render gets through before one throws: all of them when none does. */
  function RenderablePrefix(roster: seq<Entry>): (p: seq<Entry>)
    ensures |p| <= |roster|
  {
    if roster == [] || roster[0].details.None? then []
    else [roster[0]] + RenderablePrefix(roster[1..])
  }

  /**
   * The renderable prefix is a prefix of the roster, renders completely, and
   * stops only at the end or at an entry that cannot be rendered.
   */
  lemma {:induction false} RenderablePrefixSpec(roster: seq<Entry>)
    ensures RenderablePrefix(roster) <= roster
    ensures WellFormed(RenderablePrefix(roster))
    ensures var k := |RenderablePrefix(roster)|; k < |roster| ==> roster[k].details.None?
  {
    if roster != [] && roster[0].details.Some? {
      var rest := RenderablePrefix(roster[1..]);
      RenderablePrefixSpec(roster[1..]);
      var p := [roster[0]] + rest;
      assert forall i :: 1 <= i < |p| ==> p[i] == rest[i - 1];
      assert |p| < |roster| ==> roster[|p|] == roster[1..][|rest|];
    }
  }

  /** A well-formed prefix followed by the end or by a malformed entry is the renderable prefix. */
  lemma {:induction false} RenderablePrefixUnique(roster: seq<Entry>, k: nat)
    requires k <= |roster| && WellFormed(roster[..k])
    requires k < |roster| ==> roster[k].details.None?
    ensures RenderablePrefix(roster) == roster[..k]
  {
    if k > 0 {
      assert roster[..k][0] == roster[0];
      assert roster[1..][..k - 1] == roster[..k][1..];
      RenderablePrefixUnique(roster[1..], k - 1);
      assert roster[..k] == [roster[0]] + roster[1..][..k - 1];
    }
  }

  /** A roster renders completely exactly when its renderable prefix is all of it. */
  lemma RenderableAll(roster: seq<Entry>)
    ensures WellFormed(roster) <==> RenderablePrefix(roster) == roster
  {
    if WellFormed(roster) {
      assert roster[..|roster|] == roster;
      RenderablePrefixUnique(roster, |roster|);
    }
  }

  // ---------------------------------------------------------------------------
  // What the page shows
  // ---------------------------------------------------------------------------

  /** The `data-activity` / `data-email` pair carried by a delete button. */
  datatype DeleteTag = DeleteTag(activity: string, email: string)

  /** One `<li>` of a participants list, with its delete button when one is rendered. */
  datatype Row = Row(email: string, deleteButton: Option<DeleteTag>)

  /** The participants container of a card. */
  datatype ParticipantsView = NoParticipantsYet | Participants(rows: seq<Row>)

  /** One `.activity-card`. */
  datatype Card = Card(
    name: string,
    description: string,
    schedule: string,
    spotsLeft: int,
    participants: ParticipantsView)

  /**
   * The content of `#activities-list`: the cards, or the single paragraph
   * "Failed to load activities. Please try again later."
   */
  datatype ListView = Cards(cards: seq<Card>) | LoadFailed

  /** One `<option>` of the activity select. */
  datatype SelectOption = Placeholder | ActivityOption(name: string) {
    /** The option's `value` attribute. */
    function Value(): string {
      match this
      case Placeholder => ""
      case ActivityOption(name) => name
    }
  }

  // ---------------------------------------------------------------------------
  // The render derivation
  // ---------------------------------------------------------------------------

  /** Availability shown on a card; never stored, derived on every render. */
  function SpotsLeft(a: Activity): int {
    a.maxParticipants - |a.participants|
  }

  /** The `participants.map(...)` of one activity: one row per email, in order. */
  function ParticipantRows(activity: string, emails: seq<string>, loggedIn: bool): (rows: seq<Row>)
    ensures |rows| == |emails|
    ensures forall i :: 0 <= i < |rows| ==> rows[i].email == emails[i]
    ensures forall i :: 0 <= i < |rows| ==>
      rows[i].deleteButton == if loggedIn then Some(DeleteTag(activity, emails[i])) else None
  {
    if emails == [] then []
    else
      var n := |emails| - 1;
      var tag := if loggedIn then Some(DeleteTag(activity, emails[n])) else None;
      ParticipantRows(activity, emails[..n], loggedIn) + [Row(emails[n], tag)]
  }

  /** The card for one activity. */
  function RenderCard(name: string, a: Activity, loggedIn: bool): (c: Card)
    ensures c.name == name && c.description == a.description && c.schedule == a.schedule
    ensures c.spotsLeft == a.maxParticipants - |a.participants|
    ensures c.participants == NoParticipantsYet <==> a.participants == []
    ensures c.participants.Participants? ==>
      |c.participants.rows| == |a.participants| &&
      forall i :: 0 <= i < |a.participants| ==>
        c.participants.rows[i].email == a.participants[i] &&
        c.participants.rows[i].deleteButton ==
          if loggedIn then Some(DeleteTag(name, a.participants[i])) else None
  {
    var rows := ParticipantRows(name, a.participants, loggedIn);
    Card(name, a.description, a.schedule, SpotsLeft(a),
         if |a.participants| > 0 then Participants(rows) else NoParticipantsYet)
  }

  /** All cards of a roster, built one entry at a time as the `forEach` does. */
  function RenderCards(roster: seq<Entry>, loggedIn: bool): (cards: seq<Card>)
    requires WellFormed(roster)
    ensures |cards| == |roster|
  {
    if roster == [] then []
    else
      var n := |roster| - 1;
      assert forall i :: 0 <= i < n ==> roster[..n][i] == roster[i];
      RenderCards(roster[..n], loggedIn) + [RenderCard(roster[n].name, roster[n].details.value, loggedIn)]
  }

  /**
   * The i-th card is the i-th entry's card: one card per activity, in server
   * order, each derived from its own entry alone.
   */
  lemma {:induction false} RenderCardsAt(roster: seq<Entry>, loggedIn: bool, i: nat)
    requires WellFormed(roster) && i < |roster|
    ensures RenderCards(roster, loggedIn)[i] == RenderCard(roster[i].name, roster[i].details.value, loggedIn)
  {
    var n := |roster| - 1;
    if i < n {
      assert roster[..n][i] == roster[i];
      RenderCardsAt(roster[..n], loggedIn, i);
    }
  }

  /** One option per entry, in roster order. */
  function ActivityOptions(roster: seq<Entry>): (opts: seq<SelectOption>)
    ensures |opts| == |roster|
  {
    if roster == [] then []
    else
      var n := |roster| - 1;
      ActivityOptions(roster[..n]) + [ActivityOption(roster[n].name)]
  }

  /** The select's options: the placeholder, then one option per entry. */
  function SelectOptions(roster: seq<Entry>): seq<SelectOption> {
    [Placeholder] + ActivityOptions(roster)
  }

  /**
   * The select is the placeholder followed by exactly one option per entry,
   * named after it, in roster order.
   */
  lemma {:induction false} SelectOptionsAt(roster: seq<Entry>, i: nat)
    requires i < |roster|
    ensures |SelectOptions(roster)| == |roster| + 1 && SelectOptions(roster)[0] == Placeholder
    ensures SelectOptions(roster)[i + 1] == ActivityOption(roster[i].name)
  {
    var n := |roster| - 1;
    if i < n {
      assert roster[..n][i] == roster[i];
      SelectOptionsAt(roster[..n], i);
    }
  }

  // ---------------------------------------------------------------------------
  // Delete affordances
  // ---------------------------------------------------------------------------

  /** The delete tags shown on one card. */
  function CardTags(c: Card): set<DeleteTag> {
    match c.participants
    case NoParticipantsYet => {}
    case Participants(rows) =>
      set i | 0 <= i < |rows| && rows[i].deleteButton.Some? :: rows[i].deleteButton.value
  }

  /** The delete tags shown on a whole list of cards. */
  function DeleteTags(cards: seq<Card>): set<DeleteTag> {
    if cards == [] then {} else DeleteTags(cards[..|cards| - 1]) + CardTags(cards[|cards| - 1])
  }

  /** Every (activity, email) registration of a roster, independently of any rendering. */
  ghost function Registrations(roster: seq<Entry>): set<DeleteTag>
    requires WellFormed(roster)
  {
    set i, e | 0 <= i < |roster| && e in roster[i].details.value.participants :: DeleteTag(roster[i].name, e)
  }

  /** One card shows a delete tag for each of its registrations when logged in, none otherwise. */
  lemma {:induction false} CardTagsOfRender(name: string, a: Activity, loggedIn: bool)
    ensures CardTags(RenderCard(name, a, loggedIn)) ==
      if loggedIn then set e | e in a.participants :: DeleteTag(name, e) else {}
  {
    var c := RenderCard(name, a, loggedIn);
    var rows := ParticipantRows(name, a.participants, loggedIn);
    var want := if loggedIn then set e | e in a.participants :: DeleteTag(name, e) else {};
    if a.participants == [] {
      assert CardTags(c) == {};
    } else {
      assert c.participants == Participants(rows);
      forall t | t in CardTags(c) ensures t in want {
        var i :| 0 <= i < |rows| && rows[i].deleteButton.Some? && rows[i].deleteButton.value == t;
        assert t == DeleteTag(name, a.participants[i]);
      }
      forall t | t in want ensures t in CardTags(c) {
        var e :| e in a.participants && t == DeleteTag(name, e);
        var i :| 0 <= i < |a.participants| && a.participants[i] == e;
        assert rows[i].deleteButton == Some(t);
      }
    }
  }

  /** The registrations of a roster are those of all but its last entry plus the last entry's. */
  lemma RegistrationsSnoc(roster: seq<Entry>)
    requires WellFormed(roster) && roster != []
    ensures WellFormed(roster[..|roster| - 1])
    ensures var n := |roster| - 1;
      Registrations(roster) == Registrations(roster[..n]) +
        set e | e in roster[n].details.value.participants :: DeleteTag(roster[n].name, e)
  {
    var n := |roster| - 1;
    var prefix := roster[..n];
    assert forall i :: 0 <= i < n ==> prefix[i] == roster[i];
    var last := set e | e in roster[n].details.value.participants :: DeleteTag(roster[n].name, e);
    forall t | t in Registrations(roster) ensures t in Registrations(prefix) + last {
      var i, e :| 0 <= i < |roster| && e in roster[i].details.value.participants
                  && t == DeleteTag(roster[i].name, e);
      if i < n { assert prefix[i] == roster[i]; }
    }
    forall t | t in Registrations(prefix) ensures t in Registrations(roster) {
      var i, e :| 0 <= i < n && e in prefix[i].details.value.participants
                  && t == DeleteTag(prefix[i].name, e);
      assert prefix[i] == roster[i];
    }
  }

  /**
   * Delete buttons appear exactly when logged in: the rendered tags are all the
   * roster's registrations when logged in, and there are none otherwise.
   */
  lemma {:induction false} DeleteTagsExactlyWhenLoggedIn(roster: seq<Entry>, loggedIn: bool)
    requires WellFormed(roster)
    ensures DeleteTags(RenderCards(roster, loggedIn)) == if loggedIn then Registrations(roster) else {}
  {
    if roster != [] {
      var n := |roster| - 1;
      var prefix := roster[..n];
      var cards := RenderCards(roster, loggedIn);
      assert cards[..n] == RenderCards(prefix, loggedIn);
      assert DeleteTags(cards) == DeleteTags(cards[..n]) + CardTags(cards[n]);
      DeleteTagsExactlyWhenLoggedIn(prefix, loggedIn);
      CardTagsOfRender(roster[n].name, roster[n].details.value, loggedIn);
      RegistrationsSnoc(roster);
    }
  }

  /** A delete tag on screen always names a registration present in the rendered roster. */
  lemma ShownTagIsRegistration(roster: seq<Entry>, loggedIn: bool, t: DeleteTag)
    requires WellFormed(roster)
    requires t in DeleteTags(RenderCards(roster, loggedIn))
    ensures loggedIn
    ensures exists i :: 0 <= i < |roster| && roster[i].name == t.activity
                        && t.email in roster[i].details.value.participants
  {
    DeleteTagsExactlyWhenLoggedIn(roster, loggedIn);
  }
}
