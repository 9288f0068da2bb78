/**
 * The calendar handlers (api/controllers/calendars.js) as transitions on the
 * store and queries over it. Each handler first runs its guards in the
 * source's order; a guard that throws leaves the store as it was.
 */
module CalendarsController {
  import opened Wrappers
  import opened Db

  /** What calendar.update writes: the fields present in the body replace the stored ones. */
  function Patched(cal: Calendar, data: Calendar): Calendar {
    Calendar(data.name,
             if data.description.Some? then data.description else cal.description,
             if data.color.Some? then data.color else cal.color)
  }

  /** A token that passes the guard of confirmCalendar: decoded, with a userId and a calendarId. */
  predicate CalendarTokenOk(t: Option<Token>) {
    t.Some? && Truthy(t.value.userId) && Truthy(t.value.calendarId)
  }

  /**
   * calendar.update with the validated body: the name is always replaced, a
   * description or colour the body carries replaces the stored one and an
   * absent one is kept; a body carrying every field replaces the calendar
   * whole, and applying the same body twice is applying it once.
   */
  lemma PatchedMeaning(cal: Calendar, data: Calendar)
    ensures Patched(cal, data).name == data.name
    ensures data.description.Some? ==> Patched(cal, data).description == data.description
    ensures data.description.None? ==> Patched(cal, data).description == cal.description
    ensures data.color.Some? ==> Patched(cal, data).color == data.color
    ensures data.color.None? ==> Patched(cal, data).color == cal.color
    ensures data.description.Some? && data.color.Some? ==> Patched(cal, data) == data
    ensures Patched(Patched(cal, data), data) == Patched(cal, data)
  {
  }

  /**
   * The payload shareCalendar issues for an existing user and calendar passes
   * the guard of confirmCalendar; a payload without a calendar id, which is
   * what shareEvent issues, never does.
   */
  lemma CalendarTokenGuard(s: State, u: Id, c: Id)
    requires s.Valid() && u in s.users && c in s.calendars
    ensures CalendarTokenOk(Some(Token(Some(u), Some(c), None)))
    ensures !CalendarTokenOk(None)
    ensures forall t: Token | t.calendarId.None? :: !CalendarTokenOk(Some(t))
  {
  }

  /**
   * createCalendar. `nameAccepted` is the verdict of checkCalendarName, which
   * runs first and is not part of this model. The calendar is created
   * together with one confirmed admin row for its creator.
   */
  method CreateCalendar(db: Store, actor: Id, data: Calendar, nameAccepted: bool) returns (r: Result<Id, Error>)
    requires db.Valid()
    modifies db
    ensures db.Valid()
    ensures !nameAccepted ==> r == Failure(NameRejected) && unchanged(db)
    ensures nameAccepted && actor !in old(db.users) ==> r == Failure(NotFound) && unchanged(db)
    ensures r.Success? <==> nameAccepted && actor in old(db.users)
    ensures r.Success? ==>
      var c := r.value;
      && c == old(db.nextCalendarId)
      && c !in old(db.calendars)
      && (forall k | k in old(db.userCalendars) :: k.1 != c)
      && db.Snapshot() == old(db.Snapshot()).(
           calendars := old(db.calendars)[c := data],
           userCalendars := old(db.userCalendars)[(actor, c) := Member(Admin, ConfirmedByDefault)],
           nextCalendarId := c + 1)
  {
    if !nameAccepted {
      return Failure(NameRejected);
    }
    if actor !in db.users {
      // connecting the creator row to a missing user aborts the nested create
      return Failure(NotFound);
    }
    var c := db.nextCalendarId;
    db.calendars := db.calendars[c := data];
    db.userCalendars := db.userCalendars[(actor, c) := Member(Admin, ConfirmedByDefault)];
    db.nextCalendarId := c + 1;
    r := Success(c);
    assert (actor, c) in db.userCalendars;
  }

  /** updateCalendar: admins only; checkCalendarName runs after the role check. */
  method UpdateCalendar(db: Store, actor: Id, c: Id, data: Calendar, nameAccepted: bool) returns (r: Result<(), Error>)
    requires db.Valid()
    modifies db
    ensures db.Valid()
    ensures r.Failure? ==> unchanged(db)
    ensures old(db.Snapshot().CheckCalendarAction(c, actor, {Admin})).Failure? ==>
      r == Failure(old(db.Snapshot().CheckCalendarAction(c, actor, {Admin})).error)
    ensures old(db.Snapshot().CheckCalendarAction(c, actor, {Admin})).Success? && !nameAccepted ==>
      r == Failure(NameRejected)
    ensures r.Success? <==> old(db.Snapshot().CheckCalendarAction(c, actor, {Admin})).Success? && nameAccepted
    ensures r.Success? ==>
      c in old(db.calendars) &&
      db.Snapshot() == old(db.Snapshot()).(calendars := old(db.calendars)[c := Patched(old(db.calendars)[c], data)])
  {
    var check := db.Snapshot().CheckCalendarAction(c, actor, {Admin});
    if check.Failure? {
      return Failure(check.error);
    }
    if !nameAccepted {
      return Failure(NameRejected);
    }
    db.calendars := db.calendars[c := Patched(db.calendars[c], data)];
    r := Success(());
  }

  /**
   * deleteCalendar: admins only. Every event linked to the calendar is
   * deleted, whatever other calendars it is linked to, then the calendar.
   */
  method DeleteCalendar(db: Store, actor: Id, c: Id) returns (r: Result<(), Error>)
    requires db.Valid()
    modifies db
    ensures db.Valid()
    ensures r.Failure? ==> unchanged(db)
    ensures r.Success? <==> old(db.Snapshot().CheckCalendarAction(c, actor, {Admin})).Success?
    ensures r.Failure? ==> r.error == old(db.Snapshot().CheckCalendarAction(c, actor, {Admin})).error
    ensures r.Success? ==>
      db.Snapshot() == AfterCalendarDelete(old(db.Snapshot()), c)
  {
    var check := db.Snapshot().CheckCalendarAction(c, actor, {Admin});
    if check.Failure? {
      return Failure(check.error);
    }
    // event.deleteMany({ where: { calendars: { some: { calendarId } } } })
    var doomed := db.Snapshot().LinkedEvents(c);
    var s := WithoutEvents(db.Snapshot(), doomed);
    WithoutEventsValid(db.Snapshot(), doomed);
    db.events, db.userEvents, db.calendarEvents := s.events, s.userEvents, s.calendarEvents;
    // calendar.delete({ where: { id: calendarId } })
    s := WithoutCalendar(db.Snapshot(), c);
    WithoutCalendarValid(db.Snapshot(), c);
    db.calendars, db.userCalendars, db.calendarEvents := s.calendars, s.userCalendars, s.calendarEvents;
    r := Success(());
  }

  /** The state after a successful delete of calendar `c`. */
  function AfterCalendarDelete(s: State, c: Id): State {
    WithoutCalendar(WithoutEvents(s, s.LinkedEvents(c)), c)
  }

  /**
   * What deleting a calendar does to the rest of the store: exactly the events
   * linked to it disappear (with every link they had to any calendar), the
   * calendar and its members' rows disappear, and nothing about other
   * calendars' memberships changes.
   */
  lemma DeleteCalendarCascade(s: State, c: Id)
    requires s.Valid()
    ensures var t := AfterCalendarDelete(s, c);
      && t.Valid()
      && c !in t.calendars
      && (forall e :: e in t.events <==> e in s.events && (c, e) !in s.calendarEvents)
      && (forall c', e | (c, e) in s.calendarEvents :: (c', e) !in t.calendarEvents)
      && (forall u :: (u, c) !in t.userCalendars)
      && (forall k: (Id, Id) | k.1 != c :: k in t.userCalendars <==> k in s.userCalendars)
      && (forall k | k in t.userCalendars :: t.userCalendars[k] == s.userCalendars[k])
  {
    WithoutEventsValid(s, s.LinkedEvents(c));
    WithoutCalendarValid(WithoutEvents(s, s.LinkedEvents(c)), c);
  }

  /**
   * shareCalendar. The invitee is looked up by e-mail before the admin check,
   * so an unknown address is reported even to a non-admin. A successful share
   * adds one unconfirmed moderator row and yields the token payload that the
   * invitation e-mail carries.
   */
  method ShareCalendar(db: Store, actor: Id, c: Id, email: string) returns (r: Result<Token, Error>)
    requires db.Valid()
    modifies db
    ensures db.Valid()
    ensures r.Failure? ==> unchanged(db)
    ensures !old(db.Snapshot().EmailKnown(email)) ==> r == Failure(NotFound)
    ensures old(db.Snapshot().EmailKnown(email)) ==>
      var invitee := old(db.Snapshot().UserWithEmail(email)).value;
      var check := old(db.Snapshot().CheckCalendarAction(c, actor, {Admin}));
      && (check.Failure? ==> r == Failure(check.error))
      && (check.Success? && (invitee, c) in old(db.userCalendars) ==> r == Failure(AlreadyHasAccess))
      && (check.Success? && (invitee, c) !in old(db.userCalendars) ==>
            && r == Success(Token(Some(invitee), Some(c), None))
            && db.Snapshot() == old(db.Snapshot()).(
                 userCalendars := old(db.userCalendars)[(invitee, c) := Member(Moderator, false)]))
  {
    var found := db.Snapshot().UserWithEmail(email);
    if found.None? {
      return Failure(NotFound);
    }
    var invitee := found.value;
    var check := db.Snapshot().CheckCalendarAction(c, actor, {Admin});
    if check.Failure? {
      return Failure(check.error);
    }
    if (invitee, c) in db.userCalendars {
      return Failure(AlreadyHasAccess);
    }
    db.userCalendars := db.userCalendars[(invitee, c) := Member(Moderator, false)];
    r := Success(Token(Some(invitee), Some(c), None));
    assert (actor, c) in db.userCalendars;
  }

  /**
   * The guest fan-out of confirmCalendar: one create per event linked to
   * calendar `c`. The creates are independent: one that collides with an
   * existing (u, e) row fails without stopping the others, and `collided`
   * reports whether any did.
   */
  method EnrolInCalendarEvents(db: Store, u: Id, c: Id) returns (collided: bool)
    requires db.Valid() && u in db.users
    modifies db
    ensures db.Valid()
    ensures db.Snapshot() == old(db.Snapshot()).(
      userEvents := Rows(KeysForUser(u, old(db.Snapshot().LinkedEvents(c))), Member(Guest, ConfirmedByDefault))
                    + old(db.userEvents))
    ensures collided <==> AnyRowFor(u, old(db.Snapshot().LinkedEvents(c)), old(db.userEvents))
  {
    var linked := db.Snapshot().LinkedEvents(c);
    var todo := linked;
    ghost var before := db.Snapshot();
    var guest := Member(Guest, ConfirmedByDefault);
    collided := false;
    while todo != {}
      invariant todo <= linked
      invariant db.userEvents == Rows(KeysForUser(u, linked - todo), guest) + before.userEvents
      invariant db.Snapshot() == before.(userEvents := db.userEvents)
      invariant collided <==> AnyRowFor(u, linked - todo, before.userEvents)
      decreases todo
    {
      HasElement(todo);
      var e :| e in todo;
      ghost var done := linked - todo;
      assert (u, e) in db.userEvents <==> (u, e) in before.userEvents;
      RowsStep(u, done, e, guest, before.userEvents);
      AnyRowForStep(u, done, e, before.userEvents);
      if (u, e) in db.userEvents {
        collided := true;
      } else {
        db.userEvents := db.userEvents[(u, e) := guest];
      }
      todo := todo - {e};
      assert linked - todo == done + {e};
    }
    assert linked - todo == linked;
    GuestRowsValid(before, u, linked);
  }

  /**
   * confirmCalendar, as written. The decoded token must carry a userId and a
   * calendarId; the invitee's row is then confirmed (NotFound when there is
   * none), and a guest row is created for every event of the calendar. The
   * response is an error when any of those creates collides with a row the
   * user already has, although every other row has been written.
   */
  method ConfirmCalendar(db: Store, token: Option<Token>) returns (r: Result<(), Error>)
    requires db.Valid()
    modifies db
    ensures db.Valid()
    ensures !CalendarTokenOk(token) ==> r == Failure(InvalidToken) && unchanged(db)
    ensures CalendarTokenOk(token) ==>
      var u, c := token.value.userId.value, token.value.calendarId.value;
      && ((u, c) !in old(db.userCalendars) ==> r == Failure(NotFound) && unchanged(db))
      && ((u, c) in old(db.userCalendars) ==>
            && db.Snapshot() == CalendarConfirmed(old(db.Snapshot()), u, c)
            && (r.Success? <==> forall e | (c, e) in old(db.calendarEvents) :: (u, e) !in old(db.userEvents))
            && (r.Failure? ==> r.error == UniqueViolation))
  {
    if !CalendarTokenOk(token) {
      return Failure(InvalidToken);
    }
    var u, c := token.value.userId.value, token.value.calendarId.value;
    if (u, c) !in db.userCalendars {
      return Failure(NotFound);
    }
    db.userCalendars := db.userCalendars[(u, c) := db.userCalendars[(u, c)].(isConfirmed := true)];
    assert db.Valid() by {
      var s := db.Snapshot();
      forall c' | c' in s.calendars
        ensures exists w :: (w, c') in s.userCalendars && s.userCalendars[(w, c')].role == Admin
      {
        var w :| (w, c') in old(db.userCalendars) && old(db.userCalendars)[(w, c')].role == Admin;
        assert (w, c') in s.userCalendars;
      }
    }
    var collided := EnrolInCalendarEvents(db, u, c);
    r := if collided then Failure(UniqueViolation) else Success(());
  }

  /**
   * The store after confirmCalendar has taken effect: the user's membership
   * of `c` is confirmed, and the user has a guest row on every event linked
   * to `c` (a row they already had is kept as it was).
   */
  function CalendarConfirmed(s: State, u: Id, c: Id): State
    requires (u, c) in s.userCalendars
  {
    s.(userCalendars := s.userCalendars[(u, c) := s.userCalendars[(u, c)].(isConfirmed := true)],
       userEvents := Rows(KeysForUser(u, s.LinkedEvents(c)), Member(Guest, ConfirmedByDefault)) + s.userEvents)
  }

  /**
   * confirmCalendar as evidently intended: the same writes, but an event
   * the user already belongs to is skipped rather than reported, so a
   * well-formed token for an existing invitation always succeeds.
   */
  method ConfirmCalendarKeepingMemberships(db: Store, token: Option<Token>) returns (r: Result<(), Error>)
    requires db.Valid()
    modifies db
    ensures db.Valid()
    ensures !CalendarTokenOk(token) ==> r == Failure(InvalidToken) && unchanged(db)
    ensures CalendarTokenOk(token) ==>
      var u, c := token.value.userId.value, token.value.calendarId.value;
      && ((u, c) !in old(db.userCalendars) ==> r == Failure(NotFound) && unchanged(db))
      && ((u, c) in old(db.userCalendars) ==>
            && r == Success(())
            && db.Snapshot() == CalendarConfirmed(old(db.Snapshot()), u, c))
  {
    if !CalendarTokenOk(token) {
      return Failure(InvalidToken);
    }
    var u, c := token.value.userId.value, token.value.calendarId.value;
    if (u, c) !in db.userCalendars {
      return Failure(NotFound);
    }
    db.userCalendars := db.userCalendars[(u, c) := db.userCalendars[(u, c)].(isConfirmed := true)];
    assert db.Valid() by {
      var s := db.Snapshot();
      forall c' | c' in s.calendars
        ensures exists w :: (w, c') in s.userCalendars && s.userCalendars[(w, c')].role == Admin
      {
        var w :| (w, c') in old(db.userCalendars) && old(db.userCalendars)[(w, c')].role == Admin;
        assert (w, c') in s.userCalendars;
      }
    }
    var _ := EnrolInCalendarEvents(db, u, c);
    r := Success(());
  }

  /**
   * After a confirmation that took effect, the user belongs to every event of
   * the calendar, and keeps every row they already had.
   */
  lemma ConfirmedUserCoversCalendarEvents(s: State, u: Id, c: Id)
    requires s.Valid()
    requires (u, c) in s.userCalendars
    ensures var t := CalendarConfirmed(s, u, c);
      && t.Valid()
      && c in ListCalendars(t, u)
      && (forall e | (c, e) in s.calendarEvents :: (u, e) in t.userEvents)
      && (forall k | k in s.userEvents :: k in t.userEvents && t.userEvents[k] == s.userEvents[k])
      && (forall k | k in t.userEvents && k !in s.userEvents ::
            k.0 == u && (c, k.1) in s.calendarEvents && t.userEvents[k] == Member(Guest, true))
  {
    var t := CalendarConfirmed(s, u, c);
    forall k | k in t.userEvents
      ensures k.0 in t.users && k.1 in t.events && EventRowOk(t.userEvents[k])
    {
      if k !in s.userEvents {
        assert (c, k.1) in s.calendarEvents;
      }
    }
    forall c' | c' in t.calendars
      ensures exists w :: (w, c') in t.userCalendars && t.userCalendars[(w, c')].role == Admin
    {
      var w :| (w, c') in s.userCalendars && s.userCalendars[(w, c')].role == Admin;
      assert (w, c') in t.userCalendars;
    }
    forall e | e in t.events
      ensures exists w :: (w, e) in t.userEvents && t.userEvents[(w, e)].role == Admin
    {
      var w :| (w, e) in s.userEvents && s.userEvents[(w, e)].role == Admin;
      assert (w, e) in t.userEvents;
    }
  }

  // ---------------------------------------------------------------------------
  // Queries
  // ---------------------------------------------------------------------------

  /**
   * getCalendars (without the optional role filter): the calendars on which
   * `actor` holds a confirmed membership, each with the actor's role.
   */
  function ListCalendars(s: State, actor: Id): (r: map<Id, Role>)
    ensures forall c :: c in r <==> (actor, c) in s.userCalendars && s.userCalendars[(actor, c)].isConfirmed
    ensures forall c | c in r :: r[c] == s.userCalendars[(actor, c)].role
  {
    map k | k in s.userCalendars && k.0 == actor && s.userCalendars[k].isConfirmed :: k.1 := s.userCalendars[k].role
  }

  /**
   * getInvitedUsers: any member may ask. The result maps each other user
   * holding a membership on `c` to whether that membership is confirmed.
   */
  function InvitedUsers(s: State, c: Id, caller: Id): (r: Result<map<Id, bool>, Error>)
    ensures r.Success? <==> (caller, c) in s.userCalendars
    ensures r.Failure? ==> r.error == NotFound
    ensures r.Success? ==> forall u :: u in r.value <==> u != caller && (u, c) in s.userCalendars
    ensures r.Success? ==> forall u | u in r.value :: r.value[u] == s.userCalendars[(u, c)].isConfirmed
  {
    var check := s.CheckCalendarAction(c, caller, AllRoles);
    if check.Failure? then Failure(check.error)
    else Success(map k | k in s.userCalendars && k.1 == c && k.0 != caller :: k.0 := s.userCalendars[k].isConfirmed)
  }

  /** getNotInvitedUsers: every user without any membership on `c`, with their e-mail. */
  function NotInvitedUsers(s: State, c: Id, caller: Id): (r: Result<map<Id, string>, Error>)
    ensures r.Success? <==> (caller, c) in s.userCalendars
    ensures r.Failure? ==> r.error == NotFound
    ensures r.Success? ==> forall u :: u in r.value <==> u in s.users && (u, c) !in s.userCalendars
    ensures r.Success? ==> forall u | u in r.value :: r.value[u] == s.users[u]
  {
    var check := s.CheckCalendarAction(c, caller, AllRoles);
    if check.Failure? then Failure(check.error)
    else Success(map u | u in s.users && (u, c) !in s.userCalendars :: s.users[u])
  }

  /**
   * The two lists split the users: every user other than the caller is in
   * exactly one of them, and the caller is in neither.
   */
  lemma InvitedPartition(s: State, c: Id, caller: Id)
    requires s.Valid()
    requires (caller, c) in s.userCalendars
    ensures var inv, not := InvitedUsers(s, c, caller).value, NotInvitedUsers(s, c, caller).value;
      && inv.Keys !! not.Keys
      && inv.Keys + not.Keys == s.users.Keys - {caller}
  {
    var inv, not := InvitedUsers(s, c, caller).value, NotInvitedUsers(s, c, caller).value;
    forall u | u in inv ensures u in s.users {
      assert (u, c) in s.userCalendars;
    }
  }
}
