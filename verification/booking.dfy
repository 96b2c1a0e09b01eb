/** The stored values of one calendar: events, booking requests and their status, and the
    half-open overlap test that the confirmation transaction runs against the events. */
module Booking {

  import opened Seqs

  /** An absolute instant (a Firestore Timestamp), in milliseconds since the epoch. */
  type Instant = int

  /** A Firestore document id. The store hands out fresh ids, so they are drawn from a counter. */
  type DocId = nat

  datatype Status = Pending | Confirmed | Rejected

  /** The `meta` map of an event: requester details for an event made from a booking request,
      `createdBy: 'owner'` for an event the owner added by hand. */
  datatype Meta =
    | Requester(requesterName: string, requesterEmail: string)
    | CreatedByOwner

  datatype Event = Event(id: DocId, title: string, start: Instant, end: Instant, meta: Meta)

  datatype Request = Request(
    requesterName: string,
    requesterEmail: string,
    message: string,
    requestedStart: Instant,
    requestedEnd: Instant,
    status: Status)

  /** The conflict query of the confirmation transaction: `startUTC < requestedEnd` and
      `endUTC > requestedStart`. */
  predicate Overlaps(e: Event, start: Instant, end: Instant) {
    e.start < end && e.end > start
  }

  /** The instant `t` lies in the half-open interval [lo, hi). */
  predicate Within(t: Instant, lo: Instant, hi: Instant) {
    lo <= t < hi
  }

  /** The conflict query returns at least one event. */
  predicate HasConflict(events: seq<Event>, start: Instant, end: Instant) {
    exists i :: 0 <= i < |events| && Overlaps(events[i], start, end)
  }

  /** No two events of the sequence overlap. */
  predicate Disjoint(events: seq<Event>) {
    forall i, j :: 0 <= i < j < |events| ==> !Overlaps(events[i], events[j].start, events[j].end)
  }

  /** Every event id lies below `bound`: ids still to be handed out are not in use. */
  predicate IdsBelow(events: seq<Event>, bound: nat) {
    forall i :: 0 <= i < |events| ==> events[i].id < bound
  }

  /** No two events share a document id. */
  predicate UniqueIds(events: seq<Event>) {
    forall i, j :: 0 <= i < j < |events| ==> events[i].id != events[j].id
  }

  predicate HasId(events: seq<Event>, id: DocId) {
    exists i :: 0 <= i < |events| && events[i].id == id
  }

  /** The event the confirmation transaction writes for request `r`. */
  function BookingEvent(id: DocId, r: Request): Event {
    Event(id, "Booking with " + r.requesterName, r.requestedStart, r.requestedEnd,
          Requester(r.requesterName, r.requesterEmail))
  }

  /** The owner's pending-requests query: the requests whose status is `pending`. */
  function PendingList(requests: map<DocId, Request>): map<DocId, Request> {
    map id | id in requests && requests[id].status == Status.Pending :: requests[id]
  }

  /** The month query: the events whose start lies between `lo` and `hi`, both included. */
  function StartsBetween(events: seq<Event>, lo: Instant, hi: Instant): (r: seq<Event>)
    ensures forall e :: e in r <==> e in events && lo <= e.start <= hi
  {
    Filter(events, (e: Event) => lo <= e.start <= hi)
  }

  /** A newly written event joins a month view exactly when its start lies in the month, and
      the events already listed stay listed. */
  lemma StartsBetweenAppend(events: seq<Event>, e: Event, lo: Instant, hi: Instant)
    ensures StartsBetween(events + [e], lo, hi) ==
            StartsBetween(events, lo, hi) + (if lo <= e.start <= hi then [e] else [])
  {
    FilterAppend(events, [e], (e: Event) => lo <= e.start <= hi);
    FilterSingleton(e, (e: Event) => lo <= e.start <= hi);
  }

  /** The overlap test is the half-open one: two intervals that share an instant overlap, and
      two non-empty intervals overlap only when some instant lies in both. (An inverted event,
      end before start, can still be reported as overlapping a request that contains it.) */
  lemma OverlapIsSharedInstant(e: Event, start: Instant, end: Instant)
    ensures (exists t :: Within(t, e.start, e.end) && Within(t, start, end)) ==> Overlaps(e, start, end)
    ensures e.start < e.end && start < end && Overlaps(e, start, end) ==>
            exists t :: Within(t, e.start, e.end) && Within(t, start, end)
  {
    if e.start < e.end && start < end && Overlaps(e, start, end) {
      var t := if e.start < start then start else e.start;
      assert Within(t, e.start, e.end) && Within(t, start, end);
    }
  }

  /** Intervals that only touch at a boundary do not conflict. */
  lemma TouchingDoesNotOverlap(e: Event, start: Instant, end: Instant)
    requires e.end == start || end == e.start
    ensures !Overlaps(e, start, end)
  {
  }

  /** Appending an event that conflicts with nothing keeps the events pairwise disjoint. */
  lemma AppendKeepsDisjoint(events: seq<Event>, e: Event)
    requires Disjoint(events)
    requires !HasConflict(events, e.start, e.end)
    ensures Disjoint(events + [e])
  {
  }

  /** Once a request's slot is booked, any request overlapping it finds a conflict: while the
      booked event stays, confirming an overlapping request fails. */
  lemma BookedSlotBlocksOverlapping(events: seq<Event>, id: DocId, booked: Request, other: Request)
    requires booked.requestedStart < other.requestedEnd
    requires other.requestedStart < booked.requestedEnd
    ensures HasConflict(events + [BookingEvent(id, booked)], other.requestedStart, other.requestedEnd)
  {
    var s := events + [BookingEvent(id, booked)];
    assert Overlaps(s[|events|], other.requestedStart, other.requestedEnd);
  }

  /** Confirming or rejecting a request takes it off the pending list and nothing else. */
  lemma PendingAfterDecision(requests: map<DocId, Request>, id: DocId, status: Status)
    requires id in requests
    requires status != Status.Pending
    ensures PendingList(requests[id := requests[id].(status := status)]) == PendingList(requests) - {id}
  {
  }

  /** A new pending request joins the pending list and nothing else changes there. */
  lemma PendingAfterSubmit(requests: map<DocId, Request>, id: DocId, r: Request)
    requires id !in requests
    requires r.status == Status.Pending
    ensures PendingList(requests[id := r]) == PendingList(requests)[id := r]
  {
  }

  /** Keeping some of the events keeps their ids unique and below the next id to hand out. */
  lemma {:induction false} FilterKeepsIds(events: seq<Event>, p: Event -> bool, bound: nat)
    requires UniqueIds(events) && IdsBelow(events, bound)
    ensures UniqueIds(Filter(events, p)) && IdsBelow(Filter(events, p), bound)
  {
    var kept := Filter(events, p);
    forall i | 0 <= i < |kept| ensures kept[i].id < bound {
      assert kept[i] in events;
    }
    FilterKeepsUniqueIds(events, p);
  }

  lemma {:induction false} FilterKeepsUniqueIds(events: seq<Event>, p: Event -> bool)
    requires UniqueIds(events)
    ensures UniqueIds(Filter(events, p))
  {
    if events != [] {
      var rest := events[1..];
      assert UniqueIds(rest) by {
        forall i, j | 0 <= i < j < |rest| ensures rest[i].id != rest[j].id {
          assert rest[i] == events[i + 1] && rest[j] == events[j + 1];
        }
      }
      FilterKeepsUniqueIds(rest, p);
      if p(events[0]) {
        var r := Filter(events, p);
        assert r == [events[0]] + Filter(rest, p);
        forall j | 0 < j < |r| ensures r[0].id != r[j].id {
          assert r[j] in rest;
          var k :| 0 <= k < |rest| && rest[k] == r[j];
          assert events[k + 1] == r[j];
        }
      }
    }
  }

}
