/** One calendar document together with its `events` and `booking_requests` subcollections,
    held in memory, and the owner dashboard's handlers that change them. The public page's
    request submission is the one write a visitor makes. */
module Store {

  import opened Wrappers
  import opened Seqs
  import opened Booking

  /** Share tokens are `nanoid(12)`: twelve characters of the URL-safe alphabet. */
  const TokenLength := 12

  predicate UrlSafe(c: char) {
    ('A' <= c <= 'Z') || ('a' <= c <= 'z') || ('0' <= c <= '9') || c == '_' || c == '-'
  }

  predicate IsShareToken(t: string) {
    |t| == TokenLength && forall i :: 0 <= i < |t| ==> UrlSafe(t[i])
  }

  /** Wall-clock working hours as stored at signup. */
  datatype WorkingHours = WorkingHours(start: string, end: string)

  /** A month and year as luxon reports them. */
  datatype MonthYear = MonthYear(month: int, year: int)

  /** How a handler ended: it wrote, it refused with the error's message, or the store had no
      document with the given id to update. */
  datatype Outcome = Done | Refused(message: string) | Missing

  const SlotTakenMessage := "This time slot is no longer available."
  const InvalidEntryMessage := "Invalid date or time entered."
  const OtherMonthMessage := "You can only add events for the current month shown on the calendar."
  const InvalidUpdateMessage := "Invalid date or time."

  /** The events of `events` with `id` given a new title and new times; every other field and
      every other event is kept. */
  function Retimed(events: seq<Event>, id: DocId, title: string, start: Instant, end: Instant): seq<Event> {
    seq(|events|, i requires 0 <= i < |events| =>
      if events[i].id == id then events[i].(title := title, start := start, end := end) else events[i])
  }

  class Calendar {
    const ownerUid: string
    const workingHours: WorkingHours
    const defaultDurationMinutes: int
    var shareToken: string
    var events: seq<Event>
    var requests: map<DocId, Request>
    /** The next document id the store hands out. */
    var nextDocId: DocId

    ghost predicate Valid()
      reads this
    {
      && IsShareToken(shareToken)
      && IdsBelow(events, nextDocId)
      && UniqueIds(events)
      && (forall id :: id in requests ==> id < nextDocId)
    }

    /** The calendar document written at signup. */
    constructor (ownerUid: string, token: string)
      requires IsShareToken(token)
      ensures Valid()
      ensures this.ownerUid == ownerUid && shareToken == token
      ensures workingHours == WorkingHours("09:00", "18:00") && defaultDurationMinutes == 30
      ensures events == [] && requests == map[]
    {
      this.ownerUid := ownerUid;
      workingHours := WorkingHours("09:00", "18:00");
      defaultDurationMinutes := 30;
      shareToken := token;
      events := [];
      requests := map[];
      nextDocId := 0;
    }

    /** The owner's list of requests still awaiting a decision. */
    function PendingRequests(): map<DocId, Request>
      reads this
    {
      PendingList(requests)
    }

    /** A visitor's booking form: stores the request as submitted, with status `pending`. No
        field is validated and no conflict is looked for. */
    method SubmitBookingRequest(name: string, email: string, message: string, start: Instant, end: Instant)
      returns (id: DocId)
      requires Valid()
      modifies this
      ensures Valid()
      ensures id !in old(requests)
      ensures requests == old(requests)[id := Request(name, email, message, start, end, Status.Pending)]
      ensures PendingRequests() == old(PendingRequests())[id := Request(name, email, message, start, end, Status.Pending)]
      ensures events == old(events) && shareToken == old(shareToken)
    {
      id := nextDocId;
      PendingAfterSubmit(requests, id, Request(name, email, message, start, end, Status.Pending));
      requests := requests[id := Request(name, email, message, start, end, Status.Pending)];
      nextDocId := nextDocId + 1;
    }

    /** The confirmation transaction. If an event overlaps the requested interval it fails and
        writes nothing; otherwise it writes the booking event and marks the request confirmed,
        both or neither. The request's current status is not looked at. */
    method ConfirmRequest(id: DocId) returns (o: Outcome)
      requires Valid()
      modifies this
      ensures Valid()
      ensures shareToken == old(shareToken)
      ensures id !in old(requests) ==>
                o == Missing && events == old(events) && requests == old(requests)
      ensures id in old(requests) &&
              HasConflict(old(events), old(requests)[id].requestedStart, old(requests)[id].requestedEnd) ==>
                o == Refused(SlotTakenMessage) && events == old(events) && requests == old(requests)
      ensures id in old(requests) &&
              !HasConflict(old(events), old(requests)[id].requestedStart, old(requests)[id].requestedEnd) ==>
                && o == Done
                && events == old(events) + [BookingEvent(old(nextDocId), old(requests)[id])]
                && requests == old(requests)[id := old(requests)[id].(status := Status.Confirmed)]
                && PendingRequests() == old(PendingRequests()) - {id}
      ensures o == Done ==>
                var r, e := old(requests)[id], events[|old(events)|];
                && e.title == "Booking with " + r.requesterName
                && e.start == r.requestedStart && e.end == r.requestedEnd
                && e.meta == Requester(r.requesterName, r.requesterEmail)
      ensures Disjoint(old(events)) ==> Disjoint(events)
    {
      if id !in requests {
        return Missing;
      }
      var r := requests[id];
      if HasConflict(events, r.requestedStart, r.requestedEnd) {
        return Refused(SlotTakenMessage);
      }
      var e := BookingEvent(nextDocId, r);
      if Disjoint(events) {
        AppendKeepsDisjoint(events, e);
      }
      PendingAfterDecision(requests, id, Status.Confirmed);
      events := events + [e];
      requests := requests[id := r.(status := Status.Confirmed)];
      nextDocId := nextDocId + 1;
      o := Done;
    }

    /** Rejecting sets the status to `rejected`, whatever it was before. */
    method RejectRequest(id: DocId) returns (o: Outcome)
      requires Valid()
      modifies this`requests
      ensures Valid()
      ensures id !in old(requests) ==> o == Missing && requests == old(requests)
      ensures id in old(requests) ==>
                && o == Done
                && requests == old(requests)[id := old(requests)[id].(status := Status.Rejected)]
                && PendingRequests() == old(PendingRequests()) - {id}
    {
      if id !in requests {
        return Missing;
      }
      PendingAfterDecision(requests, id, Status.Rejected);
      requests := requests[id := requests[id].(status := Status.Rejected)];
      o := Done;
    }

    /** The owner's form. `start` and `end` are the parsed wall-clock inputs (None when luxon
        finds them invalid); `utcMonthYear` gives the month and year of an instant in UTC and
        `shown` is the month the dashboard displays. Neither the order of start and end nor
        overlap with other events is checked. */
    method AddManualEvent(title: string, start: Option<Instant>, end: Option<Instant>,
                          shown: MonthYear, utcMonthYear: Instant -> MonthYear)
      returns (o: Outcome)
      requires Valid()
      modifies this`events, this`nextDocId
      ensures Valid()
      ensures start.None? || end.None? ==>
                o == Refused(InvalidEntryMessage) && events == old(events)
      ensures start.Some? && end.Some? &&
              (utcMonthYear(start.value).month != shown.month || utcMonthYear(start.value).year != shown.year) ==>
                o == Refused(OtherMonthMessage) && events == old(events)
      ensures start.Some? && end.Some? && utcMonthYear(start.value) == shown ==>
                o == Done && events == old(events) + [Event(old(nextDocId), title, start.value, end.value, CreatedByOwner)]
    {
      if start.None? || end.None? {
        return Refused(InvalidEntryMessage);
      }
      var m := utcMonthYear(start.value);
      if m.month != shown.month || m.year != shown.year {
        return Refused(OtherMonthMessage);
      }
      events := events + [Event(nextDocId, title, start.value, end.value, CreatedByOwner)];
      nextDocId := nextDocId + 1;
      o := Done;
    }

    /** The edit form: replaces the title and the two times of the named event and nothing
        else; invalid times are refused before any write. */
    method UpdateEvent(id: DocId, title: string, start: Option<Instant>, end: Option<Instant>)
      returns (o: Outcome)
      requires Valid()
      modifies this`events
      ensures Valid()
      ensures start.None? || end.None? ==> o == Refused(InvalidUpdateMessage) && events == old(events)
      ensures start.Some? && end.Some? && !HasId(old(events), id) ==> o == Missing && events == old(events)
      ensures start.Some? && end.Some? && HasId(old(events), id) ==>
                && o == Done
                && |events| == |old(events)|
                && forall i :: 0 <= i < |events| ==>
                     if old(events)[i].id == id
                     then events[i] == old(events)[i].(title := title, start := start.value, end := end.value)
                     else events[i] == old(events)[i]
    {
      if start.None? || end.None? {
        return Refused(InvalidUpdateMessage);
      }
      if !HasId(events, id) {
        return Missing;
      }
      events := Retimed(events, id, title, start.value, end.value);
      o := Done;
    }

    /** Deleting asks the owner first; without an id or without consent nothing happens.
        Deleting an id that no longer exists succeeds and changes nothing. */
    method DeleteEvent(id: Option<DocId>, ownerConfirms: bool)
      requires Valid()
      modifies this`events
      ensures Valid()
      ensures id.None? || !ownerConfirms ==> events == old(events)
      ensures id.Some? && ownerConfirms ==>
                forall e :: e in events <==> e in old(events) && e.id != id.value
    {
      if id.Some? && ownerConfirms {
        FilterKeepsIds(events, (e: Event) => e.id != id.value, nextDocId);
        events := Filter(events, (e: Event) => e.id != id.value);
      }
    }

    /** Replaces the share token and nothing else. */
    method RotateToken(newToken: string)
      requires Valid()
      requires IsShareToken(newToken)
      modifies this`shareToken
      ensures Valid()
      ensures shareToken == newToken
    {
      shareToken := newToken;
    }
  }

}
