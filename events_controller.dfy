/**
 * The event handlers (api/controllers/events.js) as transitions on the
 * store, the invited / not-invited queries, and the reshaping of the
 * getCalendarEvents result.
 */
module EventsController {
  import opened Wrappers
  import opened ClientConsts
  import opened Db

  /** The body of an event-creation request (its schema is not part of this model). */
  datatype EventInput = EventInput(name: string, content: string, startAt: int, endAt: int,
                                   kind: EventType, color: Option<string>)

  /** The body of an event-update request: the fields present replace the stored ones. */
  datatype EventPatch = EventPatch(name: Option<string>, content: Option<string>, startAt: Option<int>,
                                   endAt: Option<int>, kind: Option<EventType>, color: Option<string>)

  function Pick<T>(given: Option<T>, current: T): T {
    if given.Some? then given.value else current
  }

  function Patched(ev: Event, p: EventPatch): Event {
    Event(Pick(p.name, ev.name), Pick(p.content, ev.content), Pick(p.startAt, ev.startAt),
          Pick(p.endAt, ev.endAt), Pick(p.kind, ev.kind),
          if p.color.Some? then p.color else ev.color)
  }

  /**
   * event.update with the request body: a field the body carries replaces the
   * stored one, an absent field is kept, an empty body changes nothing, and
   * applying the same body twice is applying it once.
   */
  lemma PatchedMeaning(ev: Event, p: EventPatch)
    ensures p.name.Some? ==> Patched(ev, p).name == p.name.value
    ensures p.name.None? ==> Patched(ev, p).name == ev.name
    ensures p.content.Some? ==> Patched(ev, p).content == p.content.value
    ensures p.content.None? ==> Patched(ev, p).content == ev.content
    ensures p.startAt.Some? ==> Patched(ev, p).startAt == p.startAt.value
    ensures p.startAt.None? ==> Patched(ev, p).startAt == ev.startAt
    ensures p.endAt.Some? ==> Patched(ev, p).endAt == p.endAt.value
    ensures p.endAt.None? ==> Patched(ev, p).endAt == ev.endAt
    ensures p.kind.Some? ==> Patched(ev, p).kind == p.kind.value
    ensures p.kind.None? ==> Patched(ev, p).kind == ev.kind
    ensures p.color.Some? ==> Patched(ev, p).color == p.color
    ensures p.color.None? ==> Patched(ev, p).color == ev.color
    ensures p == EventPatch(None, None, None, None, None, None) ==> Patched(ev, p) == ev
    ensures Patched(Patched(ev, p), p) == Patched(ev, p)
  {
  }

  /** `!data.color`: an absent or empty colour counts as not supplied. */
  predicate ColorSupplied(color: Option<string>) {
    color.Some? && color.value != ""
  }

  /** The colour a new event is stored with. */
  function EventColor(data: EventInput, calendarColor: Option<string>): (color: Option<string>)
    ensures ColorSupplied(data.color) ==> color == data.color
    ensures !ColorSupplied(data.color) ==> color == calendarColor
  {
    if ColorSupplied(data.color) then data.color else calendarColor
  }

  function NewEvent(data: EventInput, calendarColor: Option<string>): Event {
    Event(data.name, data.content, data.startAt, data.endAt, data.kind, EventColor(data, calendarColor))
  }

  /** A token that passes the guard of confirmEvent: decoded, with an eventId and a userId. */
  predicate EventTokenOk(t: Option<Token>) {
    t.Some? && Truthy(t.value.eventId) && Truthy(t.value.userId)
  }

  /** `u` holds a moderator row on calendar `c`. */
  predicate Moderates(s: State, u: Id, c: Id) {
    (u, c) in s.userCalendars && s.userCalendars[(u, c)].role == Moderator
  }

  /** calendar.findFirst finds a calendar: there is one on which `u` is a moderator. */
  predicate ModeratesSome(s: State, u: Id): (found: bool)
    ensures found <==> exists c :: Moderates(s, u, c)
  {
    ModeratorRow(s, u);
    exists k | k in s.userCalendars :: k.0 == u && Moderates(s, u, k.1)
  }

  lemma ModeratorRow(s: State, u: Id)
    ensures (exists c :: Moderates(s, u, c)) ==> exists k | k in s.userCalendars :: k.0 == u && Moderates(s, u, k.1)
  {
    if exists c :: Moderates(s, u, c) {
      var c :| Moderates(s, u, c);
      assert (u, c) in s.userCalendars;
    }
  }

  /**
   * The payload shareEvent issues for an existing user and event passes the
   * guard of confirmEvent; a payload without an event id, which is what
   * shareCalendar issues, never does.
   */
  lemma EventTokenGuard(s: State, u: Id, e: Id)
    requires s.Valid() && u in s.users && e in s.events
    ensures EventTokenOk(Some(Token(Some(u), None, Some(e))))
    ensures !EventTokenOk(None)
    ensures forall t: Token | t.eventId.None? :: !EventTokenOk(Some(t))
  {
  }

  /**
   * createEvent: admins and moderators of the calendar may create. The event
   * is linked to the calendar, its creator becomes its confirmed admin, and
   * every other user holding any row on the calendar, confirmed or not,
   * becomes a guest of it.
   */
  method CreateEvent(db: Store, actor: Id, c: Id, data: EventInput) returns (r: Result<Id, Error>)
    requires db.Valid()
    modifies db
    ensures db.Valid()
    ensures r.Failure? ==> unchanged(db)
    ensures r.Success? <==> old(db.Snapshot().CheckCalendarAction(c, actor, {Admin, Moderator})).Success?
    ensures r.Failure? ==> r.error == old(db.Snapshot().CheckCalendarAction(c, actor, {Admin, Moderator})).error
    ensures r.Success? ==>
      && c in old(db.calendars)
      && r.value == old(db.nextEventId)
      && r.value !in old(db.events)
      && db.Snapshot() == WithEvent(old(db.Snapshot()), actor, c, r.value, NewEvent(data, old(db.calendars)[c].color))
  {
    var check := db.Snapshot().CheckCalendarAction(c, actor, {Admin, Moderator});
    if check.Failure? {
      return Failure(check.error);
    }
    ghost var s0 := db.Snapshot();
    var ev := NewEvent(data, db.calendars[c].color);
    CreateEventValid(s0, actor, c, ev);
    // user.findMany runs after event.create in the handler; it reads only the
    // calendar memberships, which event.create leaves alone, so it is taken here
    var guests := db.Snapshot().OtherMembers(c, actor);
    var e := InsertEvent(db, actor, c, ev);
    // one guest row for everyone else with a membership on the calendar
    NoGuestRowYet(s0.userEvents, actor, e, Member(Admin, ConfirmedByDefault), guests);
    AddEventGuests(db, e, guests);
    CreateEventSteps(s0, actor, c, ev);
    r := Success(e);
  }

  /**
   * The createEvent fan-out: a confirmed guest row on event `e` for each of
   * `guests`. The event is the one just created, so none of them has a row
   * on it yet, and none of the nested creates can collide.
   */
  method AddEventGuests(db: Store, e: Id, guests: set<Id>)
    requires forall u | u in guests :: (u, e) !in db.userEvents
    modifies db
    ensures db.Snapshot() == old(db.Snapshot()).(
      userEvents := old(db.userEvents) + Rows(KeysForEvent(guests, e), Member(Guest, ConfirmedByDefault)))
  {
    ghost var s0 := db.Snapshot();
    var todo := guests;
    var guest := Member(Guest, ConfirmedByDefault);
    while todo != {}
      invariant todo <= guests
      invariant db.userEvents == s0.userEvents + Rows(KeysForEvent(guests - todo, e), guest)
      invariant db.Snapshot() == s0.(userEvents := db.userEvents)
      decreases todo
    {
      HasElement(todo);
      var u :| u in todo;
      ghost var done := guests - todo;
      GuestStep(s0.userEvents, done, u, e, guest);
      db.userEvents := db.userEvents[(u, e) := guest];
      todo := todo - {u};
      assert guests - todo == done + {u};
    }
    assert guests - todo == guests;
  }

  /** event.create with its nested admin row for the creator and its link to calendar `c`. */
  method InsertEvent(db: Store, actor: Id, c: Id, ev: Event) returns (e: Id)
    modifies db
    ensures e == old(db.nextEventId)
    ensures db.Snapshot() == old(db.Snapshot()).(
      events := old(db.events)[e := ev],
      userEvents := old(db.userEvents)[(actor, e) := Member(Admin, ConfirmedByDefault)],
      calendarEvents := old(db.calendarEvents) + {(c, e)},
      nextEventId := e + 1)
  {
    e := db.nextEventId;
    db.events := db.events[e := ev];
    db.userEvents := db.userEvents[(actor, e) := Member(Admin, ConfirmedByDefault)];
    db.calendarEvents := db.calendarEvents + {(c, e)};
    db.nextEventId := e + 1;
  }

  /** event.create followed by the guest fan-out gives WithEvent. */
  lemma CreateEventSteps(s: State, actor: Id, c: Id, ev: Event)
    ensures var e := s.nextEventId;
      var created := s.(events := s.events[e := ev],
                        userEvents := s.userEvents[(actor, e) := Member(Admin, ConfirmedByDefault)],
                        calendarEvents := s.calendarEvents + {(c, e)},
                        nextEventId := e + 1);
      created.(userEvents := created.userEvents + Rows(KeysForEvent(s.OtherMembers(c, actor), e), Member(Guest, ConfirmedByDefault)))
        == WithEvent(s, actor, c, e, ev)
  {
    var e := s.nextEventId;
    FanOutOrder(s.userEvents, s.OtherMembers(c, actor), actor, e, Member(Admin, ConfirmedByDefault), Member(Guest, ConfirmedByDefault));
  }

  /** On a fresh event only the creator's row exists, so no guest has a row yet. */
  lemma NoGuestRowYet(base: map<(Id, Id), Member>, actor: Id, e: Id, admin: Member, guests: set<Id>)
    requires forall k | k in base :: k.1 != e
    requires actor !in guests
    ensures forall u | u in guests :: (u, e) !in base[(actor, e) := admin]
  {
  }

  lemma GuestStep(base: map<(Id, Id), Member>, done: set<Id>, u: Id, e: Id, m: Member)
    ensures base + Rows(KeysForEvent(done + {u}, e), m) == (base + Rows(KeysForEvent(done, e), m))[(u, e) := m]
  {
  }

  /** Writing the creator's admin row first and the guests after it is the same as the other way round. */
  lemma FanOutOrder(base: map<(Id, Id), Member>, guests: set<Id>, actor: Id, e: Id, admin: Member, guest: Member)
    requires actor !in guests
    ensures base[(actor, e) := admin] + Rows(KeysForEvent(guests, e), guest)
         == (base + Rows(KeysForEvent(guests, e), guest))[(actor, e) := admin]
  {
  }

  /**
   * The store after createEvent has written event `e` with contents `ev`:
   * the event row, the creator's admin row, a guest row for every other
   * member of calendar `c`, and the calendar link.
   */
  function WithEvent(s: State, actor: Id, c: Id, e: Id, ev: Event): State {
    s.(events := s.events[e := ev],
       userEvents := (s.userEvents + Rows(KeysForEvent(s.OtherMembers(c, actor), e), Member(Guest, ConfirmedByDefault)))
                       [(actor, e) := Member(Admin, ConfirmedByDefault)],
       calendarEvents := s.calendarEvents + {(c, e)},
       nextEventId := e + 1)
  }

  lemma CreateEventValid(s: State, actor: Id, c: Id, ev: Event)
    requires s.Valid()
    requires (actor, c) in s.userCalendars
    ensures forall k | k in s.userEvents :: k.1 != s.nextEventId
    ensures WithEvent(s, actor, c, s.nextEventId, ev).Valid()
  {
    var e := s.nextEventId;
    var t := WithEvent(s, actor, c, e, ev);
    assert t.IdsOk();
    assert t.EmailsUnique();
    forall k | k in t.userEvents
      ensures k.0 in t.users && k.1 in t.events && EventRowOk(t.userEvents[k])
    {
      if k.1 == e {
        if k.0 != actor {
          assert (k.0, c) in s.userCalendars;
        }
      } else {
        assert k in s.userEvents;
      }
    }
    forall l | l in t.calendarEvents
      ensures l.0 in t.calendars && l.1 in t.events
    {
      if l != (c, e) {
        assert l in s.calendarEvents;
      }
    }
    assert t.RowsOk();
    forall e' | e' in t.events
      ensures exists w :: (w, e') in t.userEvents && t.userEvents[(w, e')].role == Admin
    {
      if e' == e {
        assert (actor, e) in t.userEvents;
      } else {
        var w :| (w, e') in s.userEvents && s.userEvents[(w, e')].role == Admin;
        assert (w, e') in t.userEvents;
      }
    }
    forall c' | c' in t.calendars
      ensures exists w :: (w, c') in t.userCalendars && t.userCalendars[(w, c')].role == Admin
    {
      var w :| (w, c') in s.userCalendars && s.userCalendars[(w, c')].role == Admin;
      assert (w, c') in t.userCalendars;
    }
  }

  /** After creation, every other member of the calendar is a confirmed guest of the new event. */
  lemma CreateEventEnrolsMembers(s: State, actor: Id, c: Id, e: Id)
    ensures var ue := (s.userEvents + Rows(KeysForEvent(s.OtherMembers(c, actor), e), Member(Guest, ConfirmedByDefault)))
                        [(actor, e) := Member(Admin, ConfirmedByDefault)];
      && ue[(actor, e)] == Member(Admin, true)
      && (forall u | (u, c) in s.userCalendars && u != actor :: (u, e) in ue && ue[(u, e)] == Member(Guest, true))
      && (forall u | (u, e) in ue && u != actor && (u, e) !in s.userEvents :: (u, c) in s.userCalendars)
  {
    var ue := (s.userEvents + Rows(KeysForEvent(s.OtherMembers(c, actor), e), Member(Guest, ConfirmedByDefault)))
                [(actor, e) := Member(Admin, ConfirmedByDefault)];
    forall u | (u, c) in s.userCalendars && u != actor
      ensures (u, e) in ue && ue[(u, e)] == Member(Guest, true)
    {
      assert u in s.OtherMembers(c, actor);
      assert (u, e) in KeysForEvent(s.OtherMembers(c, actor), e);
    }
  }

  /**
   * deleteEvent: the caller needs some row on the calendar and the admin or
   * guest role on the event (a moderator is refused). An admin deletes the
   * event with all its rows. A guest drops the calendar's link to the event
   * and their own row; both deletes run, and a missing link makes the
   * response NotFound although the guest row is gone.
   */
  method DeleteEvent(db: Store, actor: Id, c: Id, e: Id) returns (r: Result<(), Error>)
    requires db.Valid()
    modifies db
    ensures db.Valid()
    ensures var calCheck := old(db.Snapshot().CheckCalendarAction(c, actor, AllRoles));
            var evCheck := old(db.Snapshot().CheckEventAction(e, actor, {Admin, Guest}));
      && (calCheck.Failure? ==> r == Failure(calCheck.error) && unchanged(db))
      && (calCheck.Success? && evCheck.Failure? ==> r == Failure(evCheck.error) && unchanged(db))
      && (calCheck.Success? && evCheck.Success? && evCheck.value.role == Admin ==>
            r == Success(()) && db.Snapshot() == WithoutEvents(old(db.Snapshot()), {e}))
      && (calCheck.Success? && evCheck.Success? && evCheck.value.role == Guest ==>
            && r == (if (c, e) in old(db.calendarEvents) then Success(()) else Failure(NotFound))
            && db.Snapshot() == old(db.Snapshot()).(
                 calendarEvents := old(db.calendarEvents) - {(c, e)},
                 userEvents := old(db.userEvents) - {(actor, e)}))
  {
    var calCheck := db.Snapshot().CheckCalendarAction(c, actor, AllRoles);
    if calCheck.Failure? {
      return Failure(calCheck.error);
    }
    var evCheck := db.Snapshot().CheckEventAction(e, actor, {Admin, Guest});
    if evCheck.Failure? {
      return Failure(evCheck.error);
    }
    if evCheck.value.role == Admin {
      WithoutEventsValid(db.Snapshot(), {e});
      var s := WithoutEvents(db.Snapshot(), {e});
      db.events, db.userEvents, db.calendarEvents := s.events, s.userEvents, s.calendarEvents;
      r := Success(());
    } else {
      ghost var s0 := db.Snapshot();
      var linked := (c, e) in db.calendarEvents;
      db.calendarEvents := db.calendarEvents - {(c, e)};
      db.userEvents := db.userEvents - {(actor, e)};
      GuestLeaveValid(s0, actor, c, e);
      r := if linked then Success(()) else Failure(NotFound);
    }
  }

  /** A guest leaving an event keeps the store valid: the event's admin row is another row. */
  lemma GuestLeaveValid(s: State, actor: Id, c: Id, e: Id)
    requires s.Valid()
    requires (actor, e) in s.userEvents && s.userEvents[(actor, e)].role == Guest
    ensures s.(calendarEvents := s.calendarEvents - {(c, e)}, userEvents := s.userEvents - {(actor, e)}).Valid()
  {
    var t := s.(calendarEvents := s.calendarEvents - {(c, e)}, userEvents := s.userEvents - {(actor, e)});
    forall e' | e' in t.events
      ensures exists w :: (w, e') in t.userEvents && t.userEvents[(w, e')].role == Admin
    {
      var w :| (w, e') in s.userEvents && s.userEvents[(w, e')].role == Admin;
      assert (w, e') != (actor, e);
      assert (w, e') in t.userEvents;
    }
  }

  /** A guest's delete leaves the event and every other member's row in place. */
  lemma GuestDeleteKeepsEvent(s: State, actor: Id, c: Id, e: Id)
    requires s.Valid()
    requires (actor, e) in s.userEvents && s.userEvents[(actor, e)].role == Guest
    ensures var t := s.(calendarEvents := s.calendarEvents - {(c, e)}, userEvents := s.userEvents - {(actor, e)});
      && e in t.events
      && (actor, e) !in t.userEvents
      && (forall k | k in s.userEvents && k != (actor, e) :: k in t.userEvents && t.userEvents[k] == s.userEvents[k])
      && (forall l | l in s.calendarEvents && l != (c, e) :: l in t.calendarEvents)
  {
    assert e in s.events;
  }

  /** updateEvent: event admins only. */
  method UpdateEvent(db: Store, actor: Id, e: Id, data: EventPatch) returns (r: Result<(), Error>)
    requires db.Valid()
    modifies db
    ensures db.Valid()
    ensures r.Failure? ==> unchanged(db)
    ensures r.Success? <==> old(db.Snapshot().CheckEventAction(e, actor, {Admin})).Success?
    ensures r.Failure? ==> r.error == old(db.Snapshot().CheckEventAction(e, actor, {Admin})).error
    ensures r.Success? ==>
      e in old(db.events) &&
      db.Snapshot() == old(db.Snapshot()).(events := old(db.events)[e := Patched(old(db.events)[e], data)])
  {
    var check := db.Snapshot().CheckEventAction(e, actor, {Admin});
    if check.Failure? {
      return Failure(check.error);
    }
    db.events := db.events[e := Patched(db.events[e], data)];
    r := Success(());
    assert (actor, e) in db.userEvents;
  }

  /**
   * shareEvent: the invitee is looked up by e-mail first, then the caller
   * must be the event's admin; an existing (invitee, event) row is refused
   * with 400, otherwise one unconfirmed guest row is added.
   */
  method ShareEvent(db: Store, actor: Id, e: Id, email: string) returns (r: Result<Token, Error>)
    requires db.Valid()
    modifies db
    ensures db.Valid()
    ensures r.Failure? ==> unchanged(db)
    ensures !old(db.Snapshot().EmailKnown(email)) ==> r == Failure(NotFound)
    ensures old(db.Snapshot().EmailKnown(email)) ==>
      var invitee := old(db.Snapshot().UserWithEmail(email)).value;
      var check := old(db.Snapshot().CheckEventAction(e, actor, {Admin}));
      && (check.Failure? ==> r == Failure(check.error))
      && (check.Success? && (invitee, e) in old(db.userEvents) ==> r == Failure(AlreadyHasAccess))
      && (check.Success? && (invitee, e) !in old(db.userEvents) ==>
            && r == Success(Token(Some(invitee), None, Some(e)))
            && db.Snapshot() == old(db.Snapshot()).(
                 userEvents := old(db.userEvents)[(invitee, e) := Member(Guest, false)]))
  {
    var found := db.Snapshot().UserWithEmail(email);
    if found.None? {
      return Failure(NotFound);
    }
    var invitee := found.value;
    var check := db.Snapshot().CheckEventAction(e, actor, {Admin});
    if check.Failure? {
      return Failure(check.error);
    }
    if (invitee, e) in db.userEvents {
      return Failure(AlreadyHasAccess);
    }
    db.userEvents := db.userEvents[(invitee, e) := Member(Guest, false)];
    r := Success(Token(Some(invitee), None, Some(e)));
    assert (actor, e) in db.userEvents;
  }

  /**
   * confirmEvent. The decoded token must carry an eventId and a userId. The
   * calendar the event is linked into is any one on which the user is a
   * moderator, whichever calendar the invitation came from; with none, the
   * handler throws before writing. The user's row is then confirmed
   * (NotFound if missing) and the link created, which collides if the event
   * is already in that calendar.
   */
  method ConfirmEvent(db: Store, token: Option<Token>) returns (r: Result<(), Error>)
    requires db.Valid()
    modifies db
    ensures db.Valid()
    ensures !EventTokenOk(token) ==> r == Failure(InvalidToken) && unchanged(db)
    ensures EventTokenOk(token) ==>
      var u, e := token.value.userId.value, token.value.eventId.value;
      && (!ModeratesSome(old(db.Snapshot()), u) ==> r == Failure(NoModeratorCalendar) && unchanged(db))
      && (ModeratesSome(old(db.Snapshot()), u) && (u, e) !in old(db.userEvents) ==>
            r == Failure(NotFound) && unchanged(db))
      && (ModeratesSome(old(db.Snapshot()), u) && (u, e) in old(db.userEvents) ==>
            exists c | Moderates(old(db.Snapshot()), u, c) ::
              && r == (if (c, e) in old(db.calendarEvents) then Failure(UniqueViolation) else Success(()))
              && db.Snapshot() == EventConfirmed(old(db.Snapshot()), u, c, e))
  {
    if !EventTokenOk(token) {
      return Failure(InvalidToken);
    }
    var u, e := token.value.userId.value, token.value.eventId.value;
    if !ModeratesSome(db.Snapshot(), u) {
      return Failure(NoModeratorCalendar);
    }
    var k :| k in db.userCalendars && k.0 == u && Moderates(db.Snapshot(), u, k.1);
    var c := k.1;
    if (u, e) !in db.userEvents {
      return Failure(NotFound);
    }
    r := ConfirmAndLink(db, u, c, e);
  }

  /** The writes of confirmEvent: userEvents.update, then the calendar link create. */
  method ConfirmAndLink(db: Store, u: Id, c: Id, e: Id) returns (r: Result<(), Error>)
    requires db.Valid()
    requires Moderates(db.Snapshot(), u, c) && (u, e) in db.userEvents
    modifies db
    ensures db.Valid()
    ensures r == (if (c, e) in old(db.calendarEvents) then Failure(UniqueViolation) else Success(()))
    ensures db.Snapshot() == EventConfirmed(old(db.Snapshot()), u, c, e)
  {
    ghost var s0 := db.Snapshot();
    ConfirmEventValid(s0, u, c, e);
    db.userEvents := db.userEvents[(u, e) := db.userEvents[(u, e)].(isConfirmed := true)];
    if (c, e) in db.calendarEvents {
      r := Failure(UniqueViolation);
    } else {
      db.calendarEvents := db.calendarEvents + {(c, e)};
      r := Success(());
    }
    assert db.Snapshot() == EventConfirmed(s0, u, c, e);
  }

  /**
   * The store after confirmEvent: the user's row on `e` is confirmed and `e`
   * is linked into calendar `c` (a link that already exists stays as it is).
   */
  function EventConfirmed(s: State, u: Id, c: Id, e: Id): State
    requires (u, e) in s.userEvents
  {
    s.(userEvents := s.userEvents[(u, e) := s.userEvents[(u, e)].(isConfirmed := true)],
       calendarEvents := s.calendarEvents + {(c, e)})
  }

  lemma ConfirmEventValid(s: State, u: Id, c: Id, e: Id)
    requires s.Valid()
    requires (u, c) in s.userCalendars && (u, e) in s.userEvents
    ensures EventConfirmed(s, u, c, e).Valid()
  {
    var t := EventConfirmed(s, u, c, e);
    forall e' | e' in t.events
      ensures exists w :: (w, e') in t.userEvents && t.userEvents[(w, e')].role == Admin
    {
      var w :| (w, e') in s.userEvents && s.userEvents[(w, e')].role == Admin;
      assert (w, e') in t.userEvents;
    }
    assert c in s.calendars && e in s.events;
  }

  // ---------------------------------------------------------------------------
  // Queries
  // ---------------------------------------------------------------------------

  /** getInvitedUsers: the other users holding a row on event `e`, with their confirmation. */
  function InvitedUsers(s: State, e: Id, caller: Id): (r: Result<map<Id, bool>, Error>)
    ensures r.Success? <==> (caller, e) in s.userEvents
    ensures r.Failure? ==> r.error == NotFound
    ensures r.Success? ==> forall u :: u in r.value <==> u != caller && (u, e) in s.userEvents
    ensures r.Success? ==> forall u | u in r.value :: r.value[u] == s.userEvents[(u, e)].isConfirmed
  {
    var check := s.CheckEventAction(e, caller, AllRoles);
    if check.Failure? then Failure(check.error)
    else Success(map k | k in s.userEvents && k.1 == e && k.0 != caller :: k.0 := s.userEvents[k].isConfirmed)
  }

  /** getNotInvitedUsers: every user without a row on event `e`, with their e-mail. */
  function NotInvitedUsers(s: State, e: Id, caller: Id): (r: Result<map<Id, string>, Error>)
    ensures r.Success? <==> (caller, e) in s.userEvents
    ensures r.Failure? ==> r.error == NotFound
    ensures r.Success? ==> forall u :: u in r.value <==> u in s.users && (u, e) !in s.userEvents
    ensures r.Success? ==> forall u | u in r.value :: r.value[u] == s.users[u]
  {
    var check := s.CheckEventAction(e, caller, AllRoles);
    if check.Failure? then Failure(check.error)
    else Success(map u | u in s.users && (u, e) !in s.userEvents :: s.users[u])
  }

  /** Every user other than the caller is in exactly one of the two lists. */
  lemma InvitedPartition(s: State, e: Id, caller: Id)
    requires s.Valid()
    requires (caller, e) in s.userEvents
    ensures var inv, not := InvitedUsers(s, e, caller).value, NotInvitedUsers(s, e, caller).value;
      && inv.Keys !! not.Keys
      && inv.Keys + not.Keys == s.users.Keys - {caller}
  {
    var inv, not := InvitedUsers(s, e, caller).value, NotInvitedUsers(s, e, caller).value;
    forall u | u in inv ensures u in s.users {
      assert (u, e) in s.userEvents;
    }
  }

  // ---------------------------------------------------------------------------
  // getCalendarEvents: reshaping the fetched rows
  // ---------------------------------------------------------------------------

  /** One fetched event with its included relations: the links into the requested calendars and the caller's rows. */
  datatype FetchedEvent = FetchedEvent(id: Id, event: Event, calendarIds: seq<Id>, roles: seq<Role>)

  /** What the response carries per event. */
  datatype EventView = EventView(id: Id, event: Event, calendarId: Id, role: Role)

  /** `calendars[0].calendarId` and `users[0].role`; either index on an empty list throws. */
  function Reshape(f: FetchedEvent): (r: Result<EventView, Error>)
    ensures r.Success? <==> Reshapeable(f)
    ensures r.Failure? ==> r.error == MissingRelation
    ensures r.Success? ==>
      && r.value.id == f.id && r.value.event == f.event
      && r.value.calendarId == f.calendarIds[0] && r.value.role == f.roles[0]
  {
    if |f.calendarIds| == 0 || |f.roles| == 0 then Failure(MissingRelation)
    else Success(EventView(f.id, f.event, f.calendarIds[0], f.roles[0]))
  }

  /** `events.reduce((prev, ev) => [...prev, reshape(ev)], prev)`. */
  function ReduceEvents(prev: seq<EventView>, rows: seq<FetchedEvent>): (r: Result<seq<EventView>, Error>)
    ensures r.Failure? ==> r.error == MissingRelation
    ensures r.Success? ==> |r.value| == |prev| + |rows| && r.value[..|prev|] == prev
    decreases |rows|
  {
    if rows == [] then Success(prev)
    else match Reshape(rows[0])
      case Failure(err) => Failure(err)
      case Success(v) => ReduceEvents(prev + [v], rows[1..])
  }

  predicate Reshapeable(f: FetchedEvent) {
    |f.calendarIds| > 0 && |f.roles| > 0
  }

  lemma {:induction false} ReduceEventsMeaning(prev: seq<EventView>, rows: seq<FetchedEvent>)
    ensures ReduceEvents(prev, rows).Success? <==> forall i | 0 <= i < |rows| :: Reshapeable(rows[i])
    ensures ReduceEvents(prev, rows).Failure? ==> ReduceEvents(prev, rows).error == MissingRelation
    ensures ReduceEvents(prev, rows).Success? ==>
      var out := ReduceEvents(prev, rows).value;
      && |out| == |prev| + |rows|
      && out[..|prev|] == prev
      && forall i | 0 <= i < |rows| ::
           out[|prev| + i] == EventView(rows[i].id, rows[i].event, rows[i].calendarIds[0], rows[i].roles[0])
    decreases |rows|
  {
    if rows != [] {
      var head := rows[0];
      if Reshapeable(head) {
        var v := EventView(head.id, head.event, head.calendarIds[0], head.roles[0]);
        ReduceEventsMeaning(prev + [v], rows[1..]);
        if ReduceEvents(prev, rows).Success? {
          var out := ReduceEvents(prev, rows).value;
          forall i | 0 <= i < |rows|
            ensures out[|prev| + i] == EventView(rows[i].id, rows[i].event, rows[i].calendarIds[0], rows[i].roles[0])
          {
            if i > 0 {
              assert rows[i] == rows[1..][i - 1];
              assert |prev + [v]| + (i - 1) == |prev| + i;
            }
          }
          assert out[..|prev|] == (prev + [v])[..|prev|];
        } else {
          var i :| 0 <= i < |rows[1..]| && !Reshapeable(rows[1..][i]);
          assert rows[1..][i] == rows[i + 1];
        }
      } else {
        assert !Reshapeable(rows[0]);
      }
    }
  }

  /**
   * The getCalendarEvents response: one record per fetched event, in order,
   * each with its first calendar link and the caller's role; it fails
   * exactly when some event came back with an empty relation.
   */
  lemma CalendarEventsResponse(rows: seq<FetchedEvent>)
    ensures ReduceEvents([], rows).Success? <==> forall i | 0 <= i < |rows| :: Reshapeable(rows[i])
    ensures ReduceEvents([], rows).Success? ==>
      var out := ReduceEvents([], rows).value;
      && |out| == |rows|
      && forall i | 0 <= i < |rows| ::
           && out[i].id == rows[i].id && out[i].event == rows[i].event
           && out[i].calendarId == rows[i].calendarIds[0] && out[i].role == rows[i].roles[0]
  {
    ReduceEventsMeaning([], rows);
    var none: seq<EventView> := [];
    var r := ReduceEvents(none, rows);
    if r.Success? {
      forall i | 0 <= i < |rows|
        ensures r.value[i] == EventView(rows[i].id, rows[i].event, rows[i].calendarIds[0], rows[i].roles[0])
      {
        assert |none| + i == i;
      }
    }
  }
}
