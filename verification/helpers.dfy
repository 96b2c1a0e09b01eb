/** The month grid shown by the calendar: six weeks of cells, a day for each day of the month
    and an empty cell for each day before or after it. Days are day numbers in the viewer's
    zone; `monthOf` is the zone's month of a day, and `offset` the position of the month's
    first day in its week. */
module Helpers {

  import opened Wrappers

  type Day = int

  /** Six weeks of seven days. */
  const GridCells := 42

  /** The month of every day in the six weeks starting at `gridStart` is the month of
      `monthStart` exactly for the `daysInMonth` days from `monthStart` on. Comparing month
      numbers is enough: no two days of a 42-day window share a month number in different years. */
  ghost predicate MonthLaidOut(monthOf: Day -> int, gridStart: Day, monthStart: Day, daysInMonth: nat) {
    forall d :: gridStart <= d < gridStart + GridCells ==>
      (monthOf(d) == monthOf(monthStart) <==> monthStart <= d < monthStart + daysInMonth)
  }

  method MonthGrid(monthStart: Day, offset: nat, daysInMonth: nat, monthOf: Day -> int)
    returns (days: seq<Option<Day>>)
    requires offset < 7
    requires 28 <= daysInMonth <= 31
    requires MonthLaidOut(monthOf, monthStart - offset, monthStart, daysInMonth)
    ensures |days| == GridCells
    ensures forall i :: 0 <= i < |days| ==> (days[i].Some? <==> offset <= i < offset + daysInMonth)
    ensures forall i :: 0 <= i < |days| && days[i].Some? ==> days[i].value == monthStart - offset + i
    ensures forall d :: monthStart <= d < monthStart + daysInMonth ==> Some(d) in days
    ensures forall i, j :: 0 <= i < j < |days| && days[i].Some? ==> days[i] != days[j]
  {
    var gridStart := monthStart - offset;
    var currentDay := gridStart;
    days := [];
    for i := 0 to GridCells
      invariant |days| == i
      invariant currentDay == gridStart + i
      invariant forall k :: 0 <= k < i ==>
        days[k] == if monthStart <= gridStart + k < monthStart + daysInMonth then Some(gridStart + k) else None
    {
      if monthOf(currentDay) == monthOf(monthStart) {
        days := days + [Some(currentDay)];
      } else {
        days := days + [None];
      }
      currentDay := currentDay + 1;
    }
    forall d | monthStart <= d < monthStart + daysInMonth ensures Some(d) in days {
      assert days[d - gridStart] == Some(d);
    }
  }

}
