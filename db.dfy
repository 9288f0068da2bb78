/**
 * The relational store the two controllers work on, reduced to what the
 * membership and invitation logic touches: users with their e-mail,
 * calendars, events, and the three join tables
 *   userCalendars  (user, calendar) -> (role, isConfirmed)
 *   userEvents     (user, event)    -> (role, isConfirmed)
 *   calendarEvents {(calendar, event)}
 * The composite keys userId_calendarId, userId_eventId and
 * calendarId_eventId make each pair unique, which a map (or a set) gives.
 *
 * Modelling assumptions about the database schema, which is not part of
 * this model: ids are positive and allocated in increasing order; a user's
 * e-mail is unique; deleting a calendar or an event deletes its join rows
 * (cascade); `isConfirmed` defaults to true when a row is created without it.
 */
module Db {
  import opened Wrappers
  import opened ClientConsts

  type Id = int

  datatype Role = Admin | Moderator | Guest

  /** Object.values(ROLES) */
  const AllRoles: set<Role> := {Admin, Moderator, Guest}

  datatype Member = Member(role: Role, isConfirmed: bool)

  /** Column default of isConfirmed (rows created without it are confirmed). */
  const ConfirmedByDefault := true

  datatype Calendar = Calendar(name: string, description: Option<string>, color: Option<string>)

  datatype Event = Event(name: string, content: string, startAt: int, endAt: int,
                         kind: EventType, color: Option<string>)

  /** The errors a handler throws; the route boundary turns them into responses. */
  datatype Error =
    | NotFound             // no such user, membership or row
    | Forbidden            // a membership whose role is not in the allowed list
    | NameRejected         // checkCalendarName refused the name
    | AlreadyHasAccess     // 400 'This user already has access to ...'
    | InvalidToken         // 400 'The confirm token is invalid.'
    | UniqueViolation      // a create collided with an existing composite key
    | NoModeratorCalendar  // destructuring the null result of calendar.findFirst
    | MissingRelation      // indexing [0] of an empty included relation

  /** The payload of a confirmation token as Token.validate decodes it. */
  datatype Token = Token(userId: Option<Id>, calendarId: Option<Id>, eventId: Option<Id>)

  /** JavaScript truthiness of an id field: present and not 0. */
  predicate Truthy(x: Option<Id>) {
    x.Some? && x.value != 0
  }

  /** The rows `keys`, each holding `m`. */
  function Rows(keys: set<(Id, Id)>, m: Member): (r: map<(Id, Id), Member>)
    ensures r.Keys == keys
    ensures forall k | k in r :: r[k] == m
  {
    map k | k in keys :: m
  }

  lemma RoleIsOneOfAll(r: Role)
    ensures r in AllRoles
  {
    match r
    case Admin =>
    case Moderator =>
    case Guest =>
  }

  /** Roles the handlers ever give on a calendar, and admin rows are confirmed. */
  predicate CalendarRowOk(m: Member) {
    m.role != Guest && (m.role == Admin ==> m.isConfirmed)
  }

  /** Roles the handlers ever give on an event, and admin rows are confirmed. */
  predicate EventRowOk(m: Member) {
    m.role != Moderator && (m.role == Admin ==> m.isConfirmed)
  }

  datatype State = State(
    users: map<Id, string>,
    calendars: map<Id, Calendar>,
    events: map<Id, Event>,
    userCalendars: map<(Id, Id), Member>,
    userEvents: map<(Id, Id), Member>,
    calendarEvents: set<(Id, Id)>,
    nextCalendarId: Id,
    nextEventId: Id)
  {
    ghost predicate IdsOk() {
      && (forall u | u in users :: 0 < u)
      && (forall c | c in calendars :: 0 < c < nextCalendarId)
      && (forall e | e in events :: 0 < e < nextEventId)
      && 0 < nextCalendarId && 0 < nextEventId
    }

    ghost predicate EmailsUnique() {
      forall u, v | u in users && v in users && users[u] == users[v] :: u == v
    }

    /** Every join row refers to existing rows on both sides. */
    ghost predicate RowsOk() {
      && (forall k | k in userCalendars :: k.0 in users && k.1 in calendars && CalendarRowOk(userCalendars[k]))
      && (forall k | k in userEvents :: k.0 in users && k.1 in events && EventRowOk(userEvents[k]))
      && (forall l | l in calendarEvents :: l.0 in calendars && l.1 in events)
    }

    /** Every calendar and every event keeps at least one admin. */
    ghost predicate AdminsOk() {
      && (forall c | c in calendars :: exists u :: (u, c) in userCalendars && userCalendars[(u, c)].role == Admin)
      && (forall e | e in events :: exists u :: (u, e) in userEvents && userEvents[(u, e)].role == Admin)
    }

    ghost predicate Valid() {
      IdsOk() && EmailsUnique() && RowsOk() && AdminsOk()
    }

    predicate EmailKnown(email: string) {
      exists u | u in users :: users[u] == email
    }

    /** Factory.exists(user, { email }): the one user registered with `email`, if any. */
    function UserWithEmail(email: string): (r: Option<Id>)
      requires EmailsUnique()
      ensures r.Some? <==> EmailKnown(email)
      ensures r.Some? ==> r.value in users && users[r.value] == email
    {
      if EmailKnown(email) then
        var u :| u in users && users[u] == email; Some(u)
      else None
    }

    /** The events linked to calendar `c`. */
    function LinkedEvents(c: Id): (es: set<Id>)
      ensures forall e :: e in es <==> (c, e) in calendarEvents
    {
      set l | l in calendarEvents && l.0 == c :: l.1
    }

    /** The users, other than `actor`, holding any membership on calendar `c`. */
    function OtherMembers(c: Id, actor: Id): (us: set<Id>)
      ensures forall u :: u in us <==> u != actor && (u, c) in userCalendars
    {
      set k | k in userCalendars && k.1 == c && k.0 != actor :: k.0
    }

    /**
     * checkCalendarAction, whose source is not part of this model: it is
     * assumed to succeed with the actor's membership when there is one and its
     * role is allowed, and to fail with NotFound / Forbidden otherwise.
     * Confirmation is not consulted.
     */
    function CheckCalendarAction(c: Id, actor: Id, allowed: set<Role>): (r: Result<Member, Error>)
      ensures r.Success? <==> (actor, c) in userCalendars && userCalendars[(actor, c)].role in allowed
      ensures r.Success? ==> r.value == userCalendars[(actor, c)]
      ensures r.Failure? ==> r.error == (if (actor, c) in userCalendars then Forbidden else NotFound)
      ensures allowed == AllRoles ==> (r.Success? <==> (actor, c) in userCalendars)
    {
      if (actor, c) !in userCalendars then Failure(NotFound)
      else if userCalendars[(actor, c)].role !in allowed then
        RoleIsOneOfAll(userCalendars[(actor, c)].role); Failure(Forbidden)
      else Success(userCalendars[(actor, c)])
    }

    /** checkEventAction, under the same assumption as CheckCalendarAction. */
    function CheckEventAction(e: Id, actor: Id, allowed: set<Role>): (r: Result<Member, Error>)
      ensures r.Success? <==> (actor, e) in userEvents && userEvents[(actor, e)].role in allowed
      ensures r.Success? ==> r.value == userEvents[(actor, e)]
      ensures r.Failure? ==> r.error == (if (actor, e) in userEvents then Forbidden else NotFound)
      ensures allowed == AllRoles ==> (r.Success? <==> (actor, e) in userEvents)
    {
      if (actor, e) !in userEvents then Failure(NotFound)
      else if userEvents[(actor, e)].role !in allowed then
        RoleIsOneOfAll(userEvents[(actor, e)].role); Failure(Forbidden)
      else Success(userEvents[(actor, e)])
    }
  }

  /** Passing a calendar check implies the calendar exists, and no check passes on a guest role. */
  lemma CalendarCheckSound(s: State, c: Id, actor: Id, allowed: set<Role>)
    requires s.Valid()
    ensures s.CheckCalendarAction(c, actor, allowed).Success? ==> c in s.calendars && actor in s.users
    ensures s.CheckCalendarAction(c, actor, {Guest}).Failure?
    ensures s.CheckCalendarAction(c, actor, {Admin, Moderator}) == s.CheckCalendarAction(c, actor, AllRoles)
  {
  }

  /** An event check never finds a moderator, so asking for {admin, guest} is asking for any role. */
  lemma EventCheckSound(s: State, e: Id, actor: Id)
    requires s.Valid()
    ensures s.CheckEventAction(e, actor, {Admin, Guest}) == s.CheckEventAction(e, actor, AllRoles)
    ensures s.CheckEventAction(e, actor, AllRoles).Success? ==> e in s.events && actor in s.users
  {
  }

  /** The keys (u, e) for every u in `us`. */
  function KeysForEvent(us: set<Id>, e: Id): (ks: set<(Id, Id)>)
    ensures forall k :: k in ks <==> k.0 in us && k.1 == e
  {
    var ks := set u | u in us :: (u, e);
    assert forall k: (Id, Id) | k.0 in us && k.1 == e :: k in ks by {
      forall k: (Id, Id) | k.0 in us && k.1 == e ensures k in ks {
        var u := k.0;
        assert u in us;
        assert k == (u, e);
      }
    }
    ks
  }

  /** The keys (u, e) for every e in `es`. */
  function KeysForUser(u: Id, es: set<Id>): (ks: set<(Id, Id)>)
    ensures forall k :: k in ks <==> k.0 == u && k.1 in es
  {
    var ks := set e | e in es :: (u, e);
    assert forall k: (Id, Id) | k.0 == u && k.1 in es :: k in ks by {
      forall k: (Id, Id) | k.0 == u && k.1 in es ensures k in ks {
        var e := k.1;
        assert e in es;
        assert k == (u, e);
      }
    }
    ks
  }

  /** Adding one more row to a fan-out: a new key is added, an existing one is kept. */
  lemma RowsStep(u: Id, done: set<Id>, e: Id, m: Member, base: map<(Id, Id), Member>)
    ensures (u, e) !in base ==>
      Rows(KeysForUser(u, done + {e}), m) + base == (Rows(KeysForUser(u, done), m) + base)[(u, e) := m]
    ensures (u, e) in base ==>
      Rows(KeysForUser(u, done + {e}), m) + base == Rows(KeysForUser(u, done), m) + base
  {
  }

  lemma EmptyIfNoElement(s: set<Id>)
    requires forall x :: x !in s
    ensures s == {}
  {
    assert forall x :: x in s <==> x in {};
  }

  /** A non-empty set has an element to pick (what the fan-out loops choose from). */
  lemma HasElement(s: set<Id>)
    ensures s != {} ==> exists x :: x in s
  {
    if !exists x :: x in s {
      EmptyIfNoElement(s);
    }
  }

  /** Some event of `es` already has a row for user `u` in `rows`. */
  predicate AnyRowFor(u: Id, es: set<Id>, rows: map<(Id, Id), Member>) {
    exists e | e in es :: (u, e) in rows
  }

  lemma AnyRowForStep(u: Id, done: set<Id>, e: Id, rows: map<(Id, Id), Member>)
    ensures AnyRowFor(u, done + {e}, rows) <==> AnyRowFor(u, done, rows) || (u, e) in rows
  {
    if AnyRowFor(u, done + {e}, rows) && (u, e) !in rows {
      var e' :| e' in done + {e} && (u, e') in rows;
      assert e' in done;
    }
  }

  /** Guest rows for an existing user on existing events keep the store valid. */
  lemma GuestRowsValid(s: State, u: Id, es: set<Id>)
    requires s.Valid() && u in s.users
    requires forall e | e in es :: e in s.events
    ensures s.(userEvents := Rows(KeysForUser(u, es), Member(Guest, ConfirmedByDefault)) + s.userEvents).Valid()
  {
    var t := s.(userEvents := Rows(KeysForUser(u, es), Member(Guest, ConfirmedByDefault)) + s.userEvents);
    forall e | e in t.events
      ensures exists w :: (w, e) in t.userEvents && t.userEvents[(w, e)].role == Admin
    {
      var w :| (w, e) in s.userEvents && s.userEvents[(w, e)].role == Admin;
      assert (w, e) in t.userEvents;
    }
  }

  /** Deleting the events `doomed`; their user and calendar rows go with them (cascade). */
  function WithoutEvents(s: State, doomed: set<Id>): State {
    s.(events := s.events - doomed,
       userEvents := map k | k in s.userEvents && k.1 !in doomed :: s.userEvents[k],
       calendarEvents := set l | l in s.calendarEvents && l.1 !in doomed)
  }

  /** Deleting calendar `c`; its member rows and event links go with it (cascade). */
  function WithoutCalendar(s: State, c: Id): State {
    s.(calendars := s.calendars - {c},
       userCalendars := map k | k in s.userCalendars && k.1 != c :: s.userCalendars[k],
       calendarEvents := set l | l in s.calendarEvents && l.0 != c)
  }

  lemma WithoutEventsValid(s: State, doomed: set<Id>)
    requires s.Valid()
    ensures WithoutEvents(s, doomed).Valid()
  {
    var t := WithoutEvents(s, doomed);
    forall e | e in t.events
      ensures exists u :: (u, e) in t.userEvents && t.userEvents[(u, e)].role == Admin
    {
      var u :| (u, e) in s.userEvents && s.userEvents[(u, e)].role == Admin;
      assert (u, e) in t.userEvents;
    }
  }

  lemma WithoutCalendarValid(s: State, c: Id)
    requires s.Valid()
    ensures WithoutCalendar(s, c).Valid()
  {
    var t := WithoutCalendar(s, c);
    forall c' | c' in t.calendars
      ensures exists u :: (u, c') in t.userCalendars && t.userCalendars[(u, c')].role == Admin
    {
      var u :| (u, c') in s.userCalendars && s.userCalendars[(u, c')].role == Admin;
      assert (u, c') in t.userCalendars;
    }
  }

  /** The database the handlers run against. */
  class Store {
    var users: map<Id, string>
    var calendars: map<Id, Calendar>
    var events: map<Id, Event>
    var userCalendars: map<(Id, Id), Member>
    var userEvents: map<(Id, Id), Member>
    var calendarEvents: set<(Id, Id)>
    var nextCalendarId: Id
    var nextEventId: Id

    function Snapshot(): State
      reads this
    {
      State(users, calendars, events, userCalendars, userEvents, calendarEvents, nextCalendarId, nextEventId)
    }

    ghost predicate Valid()
      reads this
    {
      Snapshot().Valid()
    }

    /** A database holding the registered `users` and nothing else. */
    constructor (users: map<Id, string>)
      requires forall u | u in users :: 0 < u
      requires forall u, v | u in users && v in users && users[u] == users[v] :: u == v
      ensures Valid()
      ensures Snapshot() == State(users, map[], map[], map[], map[], {}, 1, 1)
    {
      this.users := users;
      calendars := map[];
      events := map[];
      userCalendars := map[];
      userEvents := map[];
      calendarEvents := {};
      nextCalendarId := 1;
      nextEventId := 1;
    }

  }
}
