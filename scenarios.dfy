/**
 * Scenarios proved about the model on a small database: an invitation accepted after the
 * calendar already had an event, once through confirmCalendar as written
 * and once through the corrected confirmation.
 */
module Scenarios {
  import opened Wrappers
  import opened ClientConsts
  import opened Db
  import CalendarsController
  import EventsController

  const Ann: Id := 1
  const Bob: Id := 2

  /** Two registered users; Ann owns calendar 1, invites Bob, then adds an event before Bob accepts. */
  method InviteThenAddEvent() returns (db: Store, token: Option<Token>)
    ensures fresh(db)
    ensures db.Valid()
    ensures token == Some(Token(Some(Bob), Some(1), None))
    ensures db.userCalendars == map[(Ann, 1) := Member(Admin, true), (Bob, 1) := Member(Moderator, false)]
    ensures (1, 1) in db.calendarEvents
    ensures (Bob, 1) in db.userEvents && db.userEvents[(Bob, 1)].role == Guest
  {
    db := new Store(map[Ann := "ann@example.org", Bob := "bob@example.org"]);
    var created := CalendarsController.CreateCalendar(db, Ann, Calendar("Team plans", None, Some(DefaultCalendarColor)), true);
    assert created == Success(1);
    assert db.Snapshot().UserWithEmail("bob@example.org") == Some(Bob) by {
      assert db.users[Bob] == "bob@example.org";
    }
    var shared := CalendarsController.ShareCalendar(db, Ann, 1, "bob@example.org");
    assert shared == Success(Token(Some(Bob), Some(1), None));
    var input := EventsController.EventInput("Standup", "daily", 900, 915, Arrangement, None);
    assert db.Snapshot().OtherMembers(1, Ann) == {Bob} by {
      assert (Bob, 1) in db.userCalendars;
    }
    var ev := EventsController.CreateEvent(db, Ann, 1, input);
    assert ev == Success(1);
    token := Some(Token(Some(Bob), Some(1), None));
  }

  /** As written: Bob's acceptance is answered with a unique-key violation, although his row is confirmed. */
  method AcceptAsWritten() returns (r: Result<(), Error>)
    ensures r == Failure(UniqueViolation)
  {
    var db, token := InviteThenAddEvent();
    r := CalendarsController.ConfirmCalendar(db, token);
    assert (1, 1) in db.calendarEvents;
  }

  /** Corrected: the same acceptance succeeds, and Bob is listed as a confirmed member of the calendar. */
  method AcceptCorrected() returns (r: Result<(), Error>, invited: Result<map<Id, bool>, Error>)
    ensures r == Success(())
    ensures invited.Success? && invited.value.Keys == {Bob} && invited.value[Bob]
  {
    var db, token := InviteThenAddEvent();
    r, invited := ConfirmAndList(db, token);
  }

  /** Bob accepts the invitation of the run above through the corrected confirmation; Ann then lists the calendar's members. */
  method ConfirmAndList(db: Store, token: Option<Token>) returns (r: Result<(), Error>, invited: Result<map<Id, bool>, Error>)
    requires db.Valid()
    requires token == Some(Token(Some(Bob), Some(1), None))
    requires db.userCalendars == map[(Ann, 1) := Member(Admin, true), (Bob, 1) := Member(Moderator, false)]
    modifies db
    ensures r == Success(())
    ensures invited.Success? && invited.value.Keys == {Bob} && invited.value[Bob]
  {
    ghost var s0 := db.Snapshot();
    BobConfirmed(s0);
    r := CalendarsController.ConfirmCalendarKeepingMemberships(db, token);
    invited := CalendarsController.InvitedUsers(db.Snapshot(), 1, Ann);
  }

  lemma BobConfirmed(s: State)
    requires s.userCalendars == map[(Ann, 1) := Member(Admin, true), (Bob, 1) := Member(Moderator, false)]
    ensures var invited := CalendarsController.InvitedUsers(CalendarsController.CalendarConfirmed(s, Bob, 1), 1, Ann);
      invited.Success? && invited.value.Keys == {Bob} && invited.value[Bob]
  {
    var t := CalendarsController.CalendarConfirmed(s, Bob, 1);
    var invited := CalendarsController.InvitedUsers(t, 1, Ann);
    assert (Bob, 1) in t.userCalendars;
    forall u | u in invited.value ensures u == Bob {
      assert (u, 1) in t.userCalendars;
    }
  }
}
