# schedulr booking core, modelled in Dafny

schedulr lets a calendar owner publish a share link. A visitor who opens the link sees the
owner's month with every event shown as "Busy". The public page has a handler that files a
booking request for a selected slot, though nothing in the shown interface selects a slot. The owner sees the
pending requests on a dashboard. Confirming one runs a transaction: it looks for an event that
overlaps the requested interval, and if there is none it writes a "Booking with …" event and
marks the request confirmed. The owner can also reject requests, add, edit and delete events by
hand, and rotate the share token.

The model keeps one calendar's store (the calendar document with its `events` and
`booking_requests` subcollections) in memory as the class `Store.Calendar`. Each dashboard
handler is a method of that class. The public page is the class `PublicCalendarPage.PublicPage`.
The month grid loop is the method `Helpers.MonthGrid`. The calendar component is a set of pure
functions in `CalendarGrid`, tied together by the method `CalendarGrid.ShowCalendar`.

Modules:

- `Wrappers`: `Option`, used for JavaScript's `null` and for luxon's invalid `DateTime`.
- `Seqs`: an order-preserving `Filter`, used for array filters and for store queries with a field filter.
- `Booking`: events, requests, statuses, the overlap test, pairwise disjointness and the pending-request query.
- `Store`: the `Calendar` class with the dashboard handlers and the request write made by the public page.
- `PublicCalendarPage`: looking a calendar up by share token, and submitting a booking request.
- `Helpers`: the 42-cell month grid.
- `CalendarGrid`: placing events in grid cells, with the public and owner captions.

Time is abstracted. Instants are integers (milliseconds, UTC). Days are integers (day numbers
in the viewer's zone). Conversions are passed in as values or functions:

- the result of parsing a date and time with luxon is an `Option<Instant>`;
- the UTC month and year of an instant is a function `utcMonthYear`;
- the viewer's day of an instant is a function `dayOf`;
- the month of a day is a function `monthOf`.

Behaviour of the code that the model keeps:

- Creating a request validates nothing: no check that end is after start, no month check, no check against the current time.
- Neither confirm nor reject looks at the request's current status. Only the pending-request query keeps decided requests off the owner's list.
- The manual-add month check compares the UTC month and year of the start with the displayed month, not the month in the owner's zone.
- The confirmation's conflict read is a plain query, not a transactional read. The model runs the whole transaction as one atomic step and claims nothing about concurrent confirmations.

## Model

| member | source | states |
|---|---|---|
| `Booking.OverlapIsSharedInstant` | src/pages/DashboardPage.jsx:123 | The conflict test `start < requestedEnd && end > requestedStart` is the half-open test. Intervals sharing an instant always conflict. Two non-empty intervals conflict only if they share an instant. |
| `Booking.TouchingDoesNotOverlap` | src/pages/DashboardPage.jsx:123 | An event that ends when the request starts, or starts when it ends, is not a conflict. |
| `Booking.AppendKeepsDisjoint` | src/pages/DashboardPage.jsx:123-133 | Appending an event that the conflict query does not flag keeps the events pairwise non-overlapping. |
| `Booking.BookedSlotBlocksOverlapping` | src/pages/DashboardPage.jsx:120-133 | After a request's event is written, any request overlapping it finds a conflict: while the first booking's event stays, confirming an overlapping request fails. |
| `Booking.PendingAfterDecision` | src/pages/DashboardPage.jsx:50-53 | Setting a request's status to confirmed or rejected removes exactly that request from the pending list. |
| `Booking.PendingAfterSubmit` | src/pages/PublicCalendarPage.jsx:65-72 | A newly stored pending request joins the pending list, and nothing else in the list changes. |
| `Booking.StartsBetween` | src/pages/DashboardPage.jsx:41-46 | The month query returns exactly the events whose start lies between the month's bounds, both bounds included. |
| `Booking.StartsBetweenAppend` | src/pages/PublicCalendarPage.jsx:43-48 | A newly written event joins the month view exactly when its start is in the month, and the events already listed stay listed. |
| `Booking.FilterKeepsIds` | src/pages/DashboardPage.jsx:92-94 | Deleting documents keeps event ids unique and below the next id to hand out. |
| `Store.Calendar.constructor` | src/pages/AuthPage.jsx:44-52 | The signup calendar has a 12-character URL-safe token, working hours 09:00 to 18:00, a 30-minute duration, and no events or requests. |
| `Store.Calendar.SubmitBookingRequest` | src/pages/PublicCalendarPage.jsx:65-72 | Adds exactly one request under a fresh id, with status pending and the fields as submitted, without any validation. Events and token are untouched. |
| `Store.Calendar.ConfirmRequest` | src/pages/DashboardPage.jsx:117-139 | An unknown request changes nothing. If an event conflicts, it fails with "This time slot is no longer available." and changes nothing. Otherwise it appends exactly one event, with title "Booking with " followed by the requester's name, the request's start and end, and meta holding the requester's name and email, and it sets the request to confirmed, both together. The request leaves the pending list, and pairwise disjointness of events is preserved. The previous status is not checked. |
| `Store.Calendar.RejectRequest` | src/pages/DashboardPage.jsx:141-144 | Sets that request's status to rejected whatever it was before. No other request changes, and the request leaves the pending list. Events are untouched. An unknown id changes nothing. |
| `Store.Calendar.AddManualEvent` | src/pages/DashboardPage.jsx:146-175 | Invalid start or end refuses with the invalid-entry message. A start whose UTC month or year differs from the shown month refuses with the month message. Otherwise it appends one owner-created event, checking neither end after start nor overlap. |
| `Store.Calendar.UpdateEvent` | src/pages/DashboardPage.jsx:67-87 | Invalid times are refused before any write. An unknown id changes nothing. Otherwise only the title, start and end of the named event change. |
| `Store.Calendar.DeleteEvent` | src/pages/DashboardPage.jsx:89-101 | Without an id or without the owner's consent, nothing changes. Otherwise exactly the events with that id are removed. |
| `Store.Calendar.RotateToken` | src/pages/DashboardPage.jsx:103-109 | Replaces only the share token, with the given 12-character URL-safe token. |
| `PublicCalendarPage.FirstMatch` | src/pages/PublicCalendarPage.jsx:24-30 | The lookup finds nothing exactly when no calendar has the token. Otherwise it picks the first calendar that has it. |
| `PublicCalendarPage.RotatedTokenFindsNothing` | src/pages/DashboardPage.jsx:105-107 | After a calendar replaces a token that only it held, a link with the old token finds no calendar. |
| `PublicCalendarPage.TokensAfterRotation` | src/pages/DashboardPage.jsx:105-107 | When one calendar's token is replaced and no other calendar's changes, the token column the lookup searches differs from the old one only at that calendar's entry. |
| `PublicCalendarPage.UniqueTokenFindsItsCalendar` | src/pages/PublicCalendarPage.jsx:24-30 | A token held by exactly one calendar leads to that calendar. |
| `PublicCalendarPage.PublicPage.constructor` | src/pages/PublicCalendarPage.jsx:13-16 | The page starts loading, with no calendar and no error. |
| `PublicCalendarPage.PublicPage.FetchCalendar` | src/pages/PublicCalendarPage.jsx:21-39 | With no match, it sets "This share link is invalid or has expired." and loads no calendar. Otherwise it loads the first matching calendar. A failed query sets "Failed to load calendar data.". Loading always ends. |
| `PublicCalendarPage.PublicPage.HandleBookingSubmit` | src/pages/PublicCalendarPage.jsx:63-73 | With no calendar loaded, nothing happens. Otherwise exactly one pending request is stored with the given start and end and the visitor's name, email and message. Events and token are untouched. |
| `Helpers.MonthGrid` | src/lib/helpers.js:3-19 | Exactly 42 cells. Cell i holds a day iff offset <= i < offset + daysInMonth, which puts the first day at an index below 7. Each non-null cell holds the day gridStart + i, so the days are consecutive. Every day of the month appears exactly once, in one contiguous block. |
| `CalendarGrid.EventsOnDay` | src/components/CalendarGrid.jsx:33-34 | A day cell's events are exactly those whose start falls on the cell's day. |
| `CalendarGrid.CellListsEventsOfItsDay` | src/components/CalendarGrid.jsx:25-35 | A null cell lists no event. A day cell lists an event exactly when the event starts on that day. |
| `CalendarGrid.LabelsFollowView` | src/components/CalendarGrid.jsx:38-50 | The public view captions every event "Busy" and offers no controls or details click. The owner view shows the title with edit and delete controls. |
| `CalendarGrid.ShowCalendar` | src/components/CalendarGrid.jsx:13-35 | The cells are the month grid, in order: cell i is blank outside the month and otherwise shows the day gridStart + i. Each day cell lists its day's events once each, in input order. A cell shows an event only if the event starts on that cell's day. Each event appears in at most one cell. An event starting outside the month appears in no cell, and one starting inside it appears in its day's cell. The public view captions every event "Busy" without controls; the owner view shows titles with edit and delete controls. |

## Left out

- Firestore I/O, live subscriptions and storage failures of writes are not modelled. The store is in-memory state, and each handler is one sequential step. The failures modelled are a failed lookup query, passed in as `loadFailed`, and the store's not-found failure of an update to a missing document, which is the `Missing` outcome of `ConfirmRequest`, `RejectRequest` and `UpdateEvent`.
- Concurrency and transaction isolation are not modelled. The confirmation transaction is one atomic step. The real conflict read uses a plain query, so the code is not isolated, and the model does not claim that it is.
- `Store.Calendar.ConfirmRequest` reads the request's times and requester from the store by id, not from the caller's snapshot. Those fields are never changed after creation, so the two agree.
- Nothing in the shown interface can reach the booking form. The calendar component never takes the slot-click handler, so no slot is ever selected and the booking dialog renders nothing. `PublicCalendarPage.PublicPage.HandleBookingSubmit` and `Store.Calendar.SubmitBookingRequest` model the submit handler itself, with start and end as free parameters.
- Bookable-slot computation is not modelled, because no shown code computes slots: working hours, duration and timezone are passed to the calendar component and not used.
- Timezone conversion, luxon parsing and formatting (`formatInTimeZone`, `formatSimple`) are not modelled. They appear only as the parameters described above. `Helpers.MonthGrid` takes the week offset of the month's first day as given.
- `Booking.StartsBetweenAppend`: the order of query results is not modelled. The store returns a range query on `startUTC` ordered by `startUTC` and then by document id, while the model keeps write order; only which events are listed describes the program, and the order of events within a day cell is not captured.
- Clicking an event in the owner's view calls a details handler that the dashboard does not pass; the model records only that the public view's click does nothing.
- The weekday header begins on Sunday while luxon's week begins on Monday. The model does not relate grid columns to the header.
- Token randomness (`nanoid`) and the store's auto-generated ids are not modelled. A new token is a parameter, and ids come from a counter, so every id is fresh.
- The null-calendar guards of the dashboard's rotate and delete handlers are not modelled. The dashboard renders no controls without a calendar, and the model's `Calendar` is always a loaded calendar.
- `createdAt` server timestamps, toasts, `window.confirm` (passed in as `ownerConfirms`), clipboard, authentication, routing and modal form state are not modelled.
