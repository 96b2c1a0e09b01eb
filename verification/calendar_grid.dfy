/** The calendar component: each cell of the month grid lists the events whose start falls on
    that cell's day. The public view shows every event as "Busy" with no controls; the owner's
    view shows titles with edit and delete controls. */
module CalendarGrid {

  import opened Wrappers
  import opened Seqs
  import opened Booking
  import opened Helpers

  const BusyLabel := "Busy"

  /** One event line in a cell: the event, its caption, and whether it offers the edit and
      delete controls (a click in the public view does nothing). */
  datatype Entry = Entry(event: Event, caption: string, ownerControls: bool)

  datatype CellView = Blank | DayCell(day: Day, entries: seq<Entry>)

  /** The events that start on `day`, in input order; `dayOf` is the viewer's day of an instant. */
  function EventsOnDay(events: seq<Event>, dayOf: Instant -> Day, day: Day): (r: seq<Event>)
    ensures forall e :: e in r <==> e in events && dayOf(e.start) == day
  {
    Filter(events, (e: Event) => dayOf(e.start) == day)
  }

  function EntryFor(e: Event, isPublicView: bool): Entry {
    Entry(e, if isPublicView then BusyLabel else e.title, !isPublicView)
  }

  function RenderCell(cell: Option<Day>, events: seq<Event>, dayOf: Instant -> Day, isPublicView: bool): CellView {
    match cell
    case None => Blank
    case Some(d) =>
      var onDay := EventsOnDay(events, dayOf, d);
      DayCell(d, seq(|onDay|, k requires 0 <= k < |onDay| => EntryFor(onDay[k], isPublicView)))
  }

  /** The cells rendered in grid order. */
  function Render(cells: seq<Option<Day>>, events: seq<Event>, dayOf: Instant -> Day, isPublicView: bool)
    : (view: seq<CellView>)
    ensures |view| == |cells|
  {
    seq(|cells|, i requires 0 <= i < |cells| => RenderCell(cells[i], events, dayOf, isPublicView))
  }

  /** Cell `i` of `view` lists event `e`. */
  predicate Shows(view: seq<CellView>, i: nat, e: Event) {
    i < |view| && view[i].DayCell? && exists k :: 0 <= k < |view[i].entries| && view[i].entries[k].event == e
  }

  /** A blank cell lists nothing; a day cell lists exactly the events starting on its day. */
  lemma CellListsEventsOfItsDay(cells: seq<Option<Day>>, events: seq<Event>, dayOf: Instant -> Day,
                                isPublicView: bool, i: nat, e: Event)
    requires i < |cells|
    ensures Shows(Render(cells, events, dayOf, isPublicView), i, e) <==>
            cells[i].Some? && e in events && dayOf(e.start) == cells[i].value
  {
    var view := Render(cells, events, dayOf, isPublicView);
    if cells[i].Some? {
      var onDay := EventsOnDay(events, dayOf, cells[i].value);
      assert view[i].entries == seq(|onDay|, k requires 0 <= k < |onDay| => EntryFor(onDay[k], isPublicView));
      if e in events && dayOf(e.start) == cells[i].value {
        var k :| 0 <= k < |onDay| && onDay[k] == e;
        assert view[i].entries[k].event == e;
      }
    }
  }

  /** The public view masks every title as "Busy" and offers no controls; the owner's view
      shows each event's title with its controls. */
  lemma LabelsFollowView(cells: seq<Option<Day>>, events: seq<Event>, dayOf: Instant -> Day,
                         isPublicView: bool, i: nat, k: nat)
    requires i < |cells|
    requires Render(cells, events, dayOf, isPublicView)[i].DayCell?
    requires k < |Render(cells, events, dayOf, isPublicView)[i].entries|
    ensures var entry := Render(cells, events, dayOf, isPublicView)[i].entries[k];
            && (isPublicView ==> entry.caption == BusyLabel && !entry.ownerControls)
            && (!isPublicView ==> entry.caption == entry.event.title && entry.ownerControls)
  {
  }

  /** The calendar component: it builds the month grid and renders each of its cells. */
  method ShowCalendar(monthStart: Day, offset: nat, daysInMonth: nat, monthOf: Day -> int,
                      events: seq<Event>, dayOf: Instant -> Day, isPublicView: bool)
    returns (view: seq<CellView>)
    requires offset < 7
    requires 28 <= daysInMonth <= 31
    requires MonthLaidOut(monthOf, monthStart - offset, monthStart, daysInMonth)
    ensures |view| == GridCells
    ensures forall i :: 0 <= i < |view| ==> (view[i].Blank? <==> !(offset <= i < offset + daysInMonth))
    ensures forall i :: 0 <= i < |view| && view[i].DayCell? ==> view[i].day == monthStart - offset + i
    ensures forall i :: 0 <= i < |view| && view[i].DayCell? ==>
              && |view[i].entries| == |EventsOnDay(events, dayOf, view[i].day)|
              && forall k :: 0 <= k < |view[i].entries| ==>
                   view[i].entries[k].event == EventsOnDay(events, dayOf, view[i].day)[k]
    ensures forall i, e :: Shows(view, i, e) ==> e in events && dayOf(e.start) == monthStart - offset + i
    ensures forall i, j, e :: Shows(view, i, e) && Shows(view, j, e) ==> i == j
    ensures forall i, e :: e in events && !(monthStart <= dayOf(e.start) < monthStart + daysInMonth) ==>
              !Shows(view, i, e)
    ensures forall e :: e in events && monthStart <= dayOf(e.start) < monthStart + daysInMonth ==>
              Shows(view, dayOf(e.start) - monthStart + offset, e)
    ensures forall i, k :: 0 <= i < |view| && view[i].DayCell? && 0 <= k < |view[i].entries| ==>
              && (isPublicView ==> view[i].entries[k].caption == BusyLabel && !view[i].entries[k].ownerControls)
              && (!isPublicView ==> view[i].entries[k].caption == view[i].entries[k].event.title &&
                                    view[i].entries[k].ownerControls)
  {
    var cells := MonthGrid(monthStart, offset, daysInMonth, monthOf);
    view := Render(cells, events, dayOf, isPublicView);
    forall i: nat, e | Shows(view, i, e)
      ensures e in events && dayOf(e.start) == monthStart - offset + i
    {
      CellListsEventsOfItsDay(cells, events, dayOf, isPublicView, i, e);
    }
    forall e | e in events && monthStart <= dayOf(e.start) < monthStart + daysInMonth
      ensures Shows(view, dayOf(e.start) - monthStart + offset, e)
    {
      CellListsEventsOfItsDay(cells, events, dayOf, isPublicView, dayOf(e.start) - monthStart + offset, e);
    }
    forall i, k | 0 <= i < |view| && view[i].DayCell? && 0 <= k < |view[i].entries|
      ensures && (isPublicView ==> view[i].entries[k].caption == BusyLabel && !view[i].entries[k].ownerControls)
              && (!isPublicView ==> view[i].entries[k].caption == view[i].entries[k].event.title &&
                                    view[i].entries[k].ownerControls)
    {
      LabelsFollowView(cells, events, dayOf, isPublicView, i, k);
    }
  }

}
