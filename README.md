# Chronos calendars and events: a Dafny model

Chronos is a shared-calendar web application. Users own calendars, invite other
users to them by e-mail, and put events in them. Every membership carries a
role (admin, moderator or guest) and a confirmation flag. The API keeps them in
three join tables:

- user–calendar memberships;
- user–event memberships;
- calendar–event links.

This project models the parts of the system that decide how those tables
change and what gets accepted:

- **The calendar and event handlers** (`api/controllers/calendars.js`,
  `api/controllers/events.js`). They are a class `Db.Store` whose fields are
  maps and sets, one per table. Each state-changing handler is a module-level
  method that takes the store (`db: Store`) and changes its fields, written in
  the source's order: guards first, then writes. Its
  contract states the handler's whole effect as a new `Db.State` value, and it
  keeps the store invariant `Db.State.Valid`:
  - ids are positive;
  - e-mails are unique;
  - join rows point at existing rows;
  - calendar rows are never guest rows;
  - event rows are never moderator rows;
  - admin rows are always confirmed (`Db.ConfirmedByDefault`);
  - every calendar and every event keeps an admin.

  The two fan-outs (guest rows for calendar members when an event is created,
  and guest rows on every event of a calendar when an invitation is accepted)
  are loops with invariants. The read-only handlers (calendar listing, invited
  and not-invited users, reshaping of the calendar-events result) are
  functions over `Db.State`.
- **The request validators** (`api/validation/calendar.js`). They run on a
  small interpreter of the validation-schema rules they use: required fields,
  length bounds, an optional empty string, a pattern, an e-mail format.
  Lengths are counted as JavaScript's `length` counts them, in UTF-16 code
  units (`RequestValidation.Utf16Length`). Each schema is proved equal to a
  plain statement of what it accepts.
- **The client-side constants** (`web/src/consts/validation.js`):
  - the length bounds;
  - the hex-colour pattern, as a recursive recogniser proved equal to "`#` and
    then exactly 3 or 6 hex digits";
  - the event-type enumeration;
  - the default calendar colour.

Modules: `Wrappers` (Option, Result), `ClientConsts`, `RequestValidation`,
`Db`, `CalendarsController`, `EventsController`, `Scenarios` (concrete
sequences of requests, with their outcomes proved about the model).

Modelling assumptions, stated once:

- **Authorization helpers.** The source of `checkCalendarAction` and
  `checkEventAction` is not part of this model. `Db.State.CheckCalendarAction`
  and `Db.State.CheckEventAction` assume each passes when the actor holds a
  membership on the resource whose role is in the list given at the call
  site. Otherwise it fails with not-found (no membership) or forbidden (wrong
  role). Confirmation is not consulted.
- **Confirmation default.** The database schema is not part of this model.
  Rows created without an explicit `isConfirmed` are taken to be confirmed
  (`Db.ConfirmedByDefault`). Calendar creators are created that way, and the
  listings only show confirmed memberships, so with the opposite default no
  creator could ever see their own calendar.
- **Cascading deletes.** Deleting an event or a calendar also deletes its
  join rows (`Db.WithoutEvents`, `Db.WithoutCalendar`).
- **ORM outcomes.** An update or delete of a missing row fails with
  `NotFound` and changes nothing. A create that repeats an existing
  (user, resource) or (calendar, event) key fails with `UniqueViolation`
  (a 500 at the HTTP boundary) and changes nothing.
- **Parallel creates.** A `Promise.all` over independent creates attempts
  every create. One that fails does not undo the others, and the response
  is an error if any failed.
- **Confirmation tokens.** A decoded confirmation token is an input,
  `Option<Token>`. An id counts as absent when it is missing or 0, the two
  falsy values a numeric id can take.
- **E-mail lookup.** `Factory.exists(user, { email })` (api/controllers/calendars.js:177,
  api/controllers/events.js:172) is not part of this model. It is assumed to
  return the one user with that e-mail and to fail with `NotFound` when there
  is none (`Db.State.UserWithEmail`).
- **Result reshaping helpers.** `reduceToRole` (api/controllers/calendars.js:37)
  is not part of this model. It is assumed to turn the fetched calendars into
  calendar id -> the caller's role (`CalendarsController.ListCalendars`).
  `reduceToConfirmed` (api/controllers/calendars.js:145,
  api/controllers/events.js:264) is assumed to turn the fetched users into
  user id -> that user's `isConfirmed` flag on the resource (the two
  `InvitedUsers` functions).
- **Colour pattern on the API side.** The API schemas take `COLOR_PATTERN`
  from the API's own constants module (api/validation/calendar.js:2), which is
  not part of this model. It is assumed to be the pattern of the web client's
  constants, `/^#([a-fA-F0-9]{6}|[a-fA-F0-9]{3})$/`.
- **Validation defaults.** The middleware that applies the schemas is not part
  of this model. It is assumed to use the validation library's defaults:
  unknown keys are rejected, a present field must be a string, and the empty
  string is rejected unless explicitly allowed, in which case it skips the
  other checks.
- **Fan-out membership and cascades.** Two behaviours follow the code as
  written. Event creation enrols every member of the calendar, confirmed or
  not (api/controllers/events.js:96-105). Deleting a calendar deletes every
  event linked to it, also those linked to other calendars
  (api/controllers/calendars.js:107-113).

## Model

| member | source | states |
|---|---|---|
| ClientConsts.LengthBoundsAreRanges | web/src/consts/validation.js:1-4 | login 4..20, password 8..20, event name 5..20, calendar name 5..100, each with min <= max |
| ClientConsts.HexRunMeaning | web/src/consts/validation.js:5 | the recursive matcher for `[a-fA-F0-9]{n}` accepts exactly the strings of length n made only of hex digits, in either case |
| ClientConsts.ColorPatternMeaning | web/src/consts/validation.js:5 | a string matches COLOR_PATTERN if and only if it has length 4 or 7, starts with `#`, and every later character is a hex digit |
| ClientConsts.ColorPatternLength | web/src/consts/validation.js:5 | every string the pattern accepts has length 4 or 7 |
| ClientConsts.ColorPatternIsAnchored | web/src/consts/validation.js:5 | the pattern is anchored at both ends: `#1234`, `#12345`, `#1234567`, a string without `#`, one with a non-hex digit and the empty string are rejected |
| ClientConsts.DefaultCalendarColorIsValid | web/src/consts/validation.js:13-14 | the default calendar colour `#7399F2` matches COLOR_PATTERN |
| ClientConsts.ParseEventType | web/src/consts/validation.js:7-11 | looking a name up in EVENT_TYPE_ENUM yields a type whose value is that name |
| ClientConsts.EventTypeEnumMeaning | web/src/consts/validation.js:7-11 | the enumeration has exactly the three keys arrangement, reminder and task, each mapped to itself |
| ClientConsts.EventTypeRoundTrip | web/src/consts/validation.js:7-11 | every event type's name parses back to that type |
| RequestValidation.Utf16Length | api/validation/calendar.js:5-6 | a string's JavaScript `length`: at least its number of characters and at most twice that, equal to it exactly when no character lies outside the Basic Multilingual Plane |
| RequestValidation.RuleAcceptsBounded | api/validation/calendar.js:5-6 | a string rule with length bounds accepts a value if and only if it is absent and optional, or a string whose UTF-16 length is within the bounds (or empty, where '' is allowed) |
| RequestValidation.RuleAcceptsColor | api/validation/calendar.js:7 | a colour rule accepts a value if and only if it is absent and optional, or a string matching COLOR_PATTERN |
| RequestValidation.CreateSchemaMeaning | api/validation/calendar.js:4-8 | the create schema accepts a body if and only if it has no keys besides name, description and color; name is present with its UTF-16 length within the name bounds; description, if present, is '' or has its UTF-16 length within the description bounds; color, if present, matches the pattern |
| RequestValidation.UpdateSchemaMeaning | api/validation/calendar.js:10-14 | the update schema accepts a body if and only if the same holds with color required |
| RequestValidation.UpdateIsStricterThanCreate | api/validation/calendar.js:4-14 | every body the update schema accepts is accepted by the create schema |
| RequestValidation.NameLengthInCodeUnits | api/validation/calendar.js:5 | under the name bounds 5..100 a name of three emoji has length 6 and is accepted, and one of fifty-one emoji has length 102 and is rejected |
| RequestValidation.ShareSchemaMeaning | api/validation/calendar.js:16-18 | the share schema accepts a body if and only if its only key is email and that is a string in e-mail format |
| Db.State.UserWithEmail | api/controllers/calendars.js:177 | the user registered with an e-mail is found if and only if one exists, and the id found carries that e-mail |
| Db.State.LinkedEvents | api/controllers/calendars.js:107-113 | the events of a calendar are exactly those with a link to it |
| Db.State.OtherMembers | api/controllers/events.js:96-105 | the users, other than the actor, holding any membership (confirmed or not) on the calendar |
| Db.State.CheckCalendarAction | api/controllers/calendars.js:90 | passes exactly when the actor's membership exists and has an allowed role, returning it; otherwise not-found without a membership, forbidden with one |
| Db.State.CheckEventAction | api/controllers/events.js:157 | the same guard over event memberships |
| Db.CalendarCheckSound | api/controllers/calendars.js:105 | on a valid store a passed calendar check implies the calendar and actor exist, a guest-only check never passes, and asking for {admin, moderator} is asking for any role |
| Db.EventCheckSound | api/controllers/events.js:132 | on a valid store asking for {admin, guest} on an event is asking for any role, and a passed check implies the event and actor exist |
| Db.WithoutEventsValid | api/controllers/calendars.js:107-113 | deleting any set of events with their join rows keeps the store valid |
| Db.WithoutCalendarValid | api/controllers/calendars.js:115-117 | deleting a calendar with its memberships and links keeps the store valid |
| Db.GuestRowsValid | api/controllers/calendars.js:234-247 | adding guest rows for an existing user on existing events, keeping rows already there, keeps the store valid |
| CalendarsController.PatchedMeaning | api/controllers/calendars.js:93-96 | calendar.update with the body: the name is replaced; the description and the colour are each, on their own, replaced when the body carries them and kept when it does not; a body with every field replaces the calendar whole, and the same body applied twice is applied once |
| CalendarsController.CalendarTokenGuard | api/controllers/calendars.js:212-214 | the payload shareCalendar issues for an existing user and calendar passes confirmCalendar's guard; no token, or one without a calendar id (as shareEvent issues), is refused |
| CalendarsController.CreateCalendar | api/controllers/calendars.js:62-83 | a rejected name or a missing creator changes nothing; otherwise a calendar with a fresh id is added with exactly one membership, the creator's confirmed admin row, and nothing else changes |
| CalendarsController.UpdateCalendar | api/controllers/calendars.js:85-99 | only an admin passes, and the name check runs after the role check; on success only that calendar's fields change, to those in the body |
| CalendarsController.DeleteCalendar | api/controllers/calendars.js:101-120 | only an admin passes and a refusal changes nothing; on success the new store is the cascade of AfterCalendarDelete |
| CalendarsController.DeleteCalendarCascade | api/controllers/calendars.js:107-117 | after a calendar delete the store is valid, the calendar and its memberships are gone, an event survives exactly when it was not linked to that calendar (links to other calendars do not save it), and other calendars' memberships are untouched |
| CalendarsController.ShareCalendar | api/controllers/calendars.js:172-206 | an unknown e-mail fails with not-found before the admin check; a non-admin is refused; an existing membership gives a 400; otherwise exactly one unconfirmed moderator row is added and the token payload (invitee, calendar) is returned |
| CalendarsController.EnrolInCalendarEvents | api/controllers/calendars.js:224-247 | every event linked to the calendar gets a guest row for the user, a row the user already has is kept as it was, and the result reports a collision exactly when such a row existed |
| CalendarsController.ConfirmCalendar | api/controllers/calendars.js:208-250 | a token missing its userId or its calendarId gives a 400, a missing membership gives not-found, both without change; otherwise the store becomes CalendarConfirmed, and the response succeeds exactly when the user had no row on any of the calendar's events |
| CalendarsController.ConfirmCalendarKeepingMemberships | api/controllers/calendars.js:208-250 | the same guards and the same new store, and a well-formed token for an existing membership always succeeds |
| CalendarsController.ConfirmedUserCoversCalendarEvents | api/controllers/calendars.js:217-247 | after a confirmation the store is valid, the calendar appears in the user's calendar list, the user has a row on every event of the calendar, earlier rows are unchanged, and every new row is a confirmed guest row on one of those events |
| CalendarsController.ListCalendars | api/controllers/calendars.js:13-40 | the calendars listed are exactly those on which the user holds a confirmed membership, each with the user's role |
| CalendarsController.InvitedUsers | api/controllers/calendars.js:122-148 | for a member: exactly the other users with a membership on the calendar, each with its confirmation flag; for anyone else, not-found |
| CalendarsController.NotInvitedUsers | api/controllers/calendars.js:150-170 | for a member: exactly the users with no membership on the calendar, each with their e-mail |
| CalendarsController.InvitedPartition | api/controllers/calendars.js:128-165 | the two lists are disjoint and together hold every user except the caller |
| EventsController.PatchedMeaning | api/controllers/events.js:159-162 | event.update with the body: each of name, content, startAt, endAt, kind and color is, on its own, replaced when the body carries it and kept when it does not; an empty body changes nothing, and the same body applied twice is applied once |
| EventsController.EventTokenGuard | api/controllers/events.js:208-210 | the payload shareEvent issues for an existing user and event passes confirmEvent's guard; no token, or one without an event id (as shareCalendar issues), is refused |
| EventsController.ModeratesSome | api/controllers/events.js:213-222 | calendar.findFirst finds a calendar exactly when the user holds a moderator row on some calendar |
| EventsController.EventColor | api/controllers/events.js:74-77 | an absent or empty colour is replaced by the calendar's colour; a supplied one is kept |
| EventsController.CreateEvent | api/controllers/events.js:66-123 | only an admin or moderator of the calendar passes, and a refusal changes nothing; on success the new store is WithEvent: a fresh event linked to the calendar, the creator its confirmed admin, every other member of the calendar a guest |
| EventsController.InsertEvent | api/controllers/events.js:79-94 | event.create with its nested writes: the event is stored under the next id, the creator gets a confirmed admin row on it, the event is linked to the calendar, the id counter moves on, and nothing else changes |
| EventsController.AddEventGuests | api/controllers/events.js:107-120 | given users without a row on the just-created event, the fan-out adds a confirmed guest row on it for each of them, and changes nothing else |
| EventsController.CreateEventValid | api/controllers/events.js:79-120 | event creation keeps the store valid, and the fresh id has no earlier rows |
| EventsController.CreateEventEnrolsMembers | api/controllers/events.js:96-120 | after creation the creator is the event's confirmed admin, every other member of the calendar, confirmed or not, is a confirmed guest, and every new guest is such a member |
| EventsController.DeleteEvent | api/controllers/events.js:125-150 | the caller needs some calendar membership and an admin or guest event role; an admin deletes the event with its rows; a guest loses their row and the calendar's link, and a missing link gives not-found after the row is gone |
| EventsController.GuestLeaveValid | api/controllers/events.js:138-147 | a guest leaving keeps the store valid |
| EventsController.GuestDeleteKeepsEvent | api/controllers/events.js:138-147 | a guest's delete leaves the event, every other membership and every other link in place |
| EventsController.UpdateEvent | api/controllers/events.js:152-165 | only the event's admin passes; on success only that event's fields change, to those in the body |
| EventsController.ShareEvent | api/controllers/events.js:167-202 | an unknown e-mail fails first; a non-admin is refused; an existing event membership gives a 400; otherwise exactly one unconfirmed guest row is added and the token payload (invitee, event) is returned |
| EventsController.ConfirmEvent | api/controllers/events.js:204-239 | a token missing its eventId or its userId gives a 400; with no calendar on which the user is a moderator the handler fails before writing; a missing membership gives not-found; otherwise, for some calendar the user moderates, the row is confirmed and the event linked into that calendar, and the response is a unique-key error exactly when the link already existed |
| EventsController.ConfirmAndLink | api/controllers/events.js:224-236 | userEvents.update then the link create through calendar.update: the store keeps its invariant and becomes EventConfirmed, and the result is a unique-key error exactly when the event was already linked to that calendar |
| EventsController.ConfirmEventValid | api/controllers/events.js:224-236 | confirming an event keeps the store valid |
| EventsController.InvitedUsers | api/controllers/events.js:241-267 | for a member of the event: exactly the other users with a row on it, each with its confirmation flag |
| EventsController.NotInvitedUsers | api/controllers/events.js:269-287 | for a member of the event: exactly the users with no row on it, each with their e-mail |
| EventsController.InvitedPartition | api/controllers/events.js:247-284 | the two lists are disjoint and together hold every user except the caller |
| EventsController.Reshape | api/controllers/events.js:51-61 | one fetched event becomes one record with its id and fields, the first link's calendar id and the first role; an empty link or role list is a failure |
| EventsController.ReduceEvents | api/controllers/events.js:51-61 | the reduce keeps the accumulator as a prefix and adds exactly one record per fetched event; its only failure is an empty relation |
| EventsController.ReduceEventsMeaning | api/controllers/events.js:51-61 | the reduce succeeds exactly when every fetched event has a non-empty link list and role list; it then appends one record per event, in order, after the accumulator, carrying the first link's calendar and the first role |
| EventsController.CalendarEventsResponse | api/controllers/events.js:51-61 | the response holds one record per fetched event, in the same order, each with its id, fields, first calendar id and the caller's role |
| Scenarios.InviteThenAddEvent | api/controllers/events.js:96-120 | Ann creates a calendar and invites Bob; before Bob accepts, an event is added, and the fan-out already makes Bob a guest of it |
| Scenarios.AcceptAsWritten | api/controllers/calendars.js:234-247 | Bob's acceptance of that invitation is answered with a unique-key violation |
| Scenarios.AcceptCorrected | api/controllers/calendars.js:208-250 | with the corrected confirmation the same acceptance succeeds, and Bob is listed as a confirmed member of the calendar |

## Left out

- E-mail dispatch (`Email.sendMail`) is I/O; the share handlers return the token payload the message would carry instead.
- Token signing, expiry and verification are cryptographic and time-based. `Token.validate` is an input: the decoded payload, or none.
- `getHolidays` calls an external service by client IP.
- `getCalendarById` is not modelled: it is one authorization check followed by a read.
- The query part of `getCalendarEvents` is not modelled: the authorization checks on every requested calendar and the `findMany` through `getEventFilters` (a helper that is not part of this model). The model starts from the fetched rows and covers the reshaping `reduce`.
- CalendarsController.ListCalendars: the optional role filter of `getCalendars` (api/controllers/calendars.js:16-17) is built by `getCalendarFilters`, which is not part of this model; the listing is stated without the filter.
- `checkCalendarName` is not part of this model. Its verdict is the `nameAccepted` input of `CreateCalendar` and `UpdateCalendar`.
- The e-mail format rule of the share schema is the input predicate `isEmail`. The API's calendar name and description bounds are not part of this model, so the schemas take them as inputs.
- Request bodies of the event handlers are taken as already typed (`EventInput`, `EventPatch`); their validation schema is not part of this model.
- Concurrency between requests is not modelled: each handler runs alone, and the `Promise.all` fan-outs run one create at a time. The outcome is the same because the creates touch different keys.
- EventsController.ConfirmEvent: which moderated calendar `calendar.findFirst` returns depends on the database's row order, so the contract only says it is one of them.
- The holiday, authentication and routing code, and the web client apart from its validation constants, are not part of this model.

## Findings

| source | as written | input that shows it | evidently intended | confidence | as-written member | corrected member |
|---|---|---|---|---|---|---|
| api/controllers/calendars.js:234-247 | accepting a calendar invitation creates a guest row on every event of the calendar and fails when one already exists | Ann shares calendar 1 with Bob. Ann adds an event to calendar 1, and the event fan-out (api/controllers/events.js:96-120) already makes Bob a guest of it. Bob then opens his confirmation link. The response is a 500 from the unique (user, event) key, although his membership was confirmed. Replaying the same link fails the same way whenever the calendar has an event. | rows the user already has are skipped, and a valid token for an existing invitation succeeds | not executed | CalendarsController.ConfirmCalendar | CalendarsController.ConfirmCalendarKeepingMemberships |
