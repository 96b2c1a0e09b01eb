/** The public booking page: it finds the calendar whose share token is in the link, and lets
    a visitor file a booking request against it. */
module PublicCalendarPage {

  import opened Wrappers
  import opened Booking
  import opened Store

  const InvalidLinkMessage := "This share link is invalid or has expired."
  const LoadFailedMessage := "Failed to load calendar data."

  /** The share tokens of the calendars, in the order the store returns them. */
  function Tokens(calendars: seq<Calendar>): (r: seq<string>)
    reads set c | c in calendars
    ensures |r| == |calendars|
    ensures forall i :: 0 <= i < |calendars| ==> r[i] == calendars[i].shareToken
  {
    if calendars == [] then [] else [calendars[0].shareToken] + Tokens(calendars[1..])
  }

  /** The index of the first token equal to `token`: the query on `shareToken` followed by
      `docs[0]`. */
  function FirstMatch(tokens: seq<string>, token: string): (r: Option<nat>)
    ensures r.None? <==> token !in tokens
    ensures r.Some? ==> r.value < |tokens| && tokens[r.value] == token
    ensures r.Some? ==> forall j :: 0 <= j < r.value ==> tokens[j] != token
  {
    if tokens == [] then None
    else if tokens[0] == token then Some(0)
    else match FirstMatch(tokens[1..], token)
      case None => None
      case Some(k) => Some(k + 1)
  }

  /** Once a calendar has rotated its token, a link with the old token finds no calendar,
      provided no other calendar held the old token and the new one differs from it. */
  lemma RotatedTokenFindsNothing(tokens: seq<string>, k: nat, newToken: string)
    requires k < |tokens|
    requires newToken != tokens[k]
    requires forall j :: 0 <= j < |tokens| && j != k ==> tokens[j] != tokens[k]
    ensures FirstMatch(tokens[k := newToken], tokens[k]) == None
  {
  }

  /** Rotating the token of calendar `k`, and of no other calendar, replaces entry `k` of the
      token column and nothing else: the column `RotatedTokenFindsNothing` speaks of. */
  twostate lemma TokensAfterRotation(calendars: seq<Calendar>, k: nat)
    requires k < |calendars|
    requires forall j :: 0 <= j < |calendars| && j != k ==>
               calendars[j].shareToken == old(calendars[j].shareToken)
    ensures Tokens(calendars) == old(Tokens(calendars))[k := calendars[k].shareToken]
  {
    var before, after := old(Tokens(calendars)), Tokens(calendars);
    assert |after| == |before[k := calendars[k].shareToken]|;
    forall i | 0 <= i < |after| ensures after[i] == before[k := calendars[k].shareToken][i] {
      assert before[i] == old(calendars[i].shareToken);
    }
  }

  /** A token held by exactly one calendar leads to that calendar. */
  lemma UniqueTokenFindsItsCalendar(tokens: seq<string>, k: nat)
    requires k < |tokens|
    requires forall j :: 0 <= j < |tokens| && j != k ==> tokens[j] != tokens[k]
    ensures FirstMatch(tokens, tokens[k]) == Some(k)
  {
  }

  class PublicPage {
    var calendar: Calendar?
    var error: Option<string>
    var loading: bool

    ghost predicate Valid()
      reads this, calendar
    {
      calendar != null ==> calendar.Valid()
    }

    /** The page as it first renders: loading, with neither a calendar nor an error. */
    constructor ()
      ensures Valid()
      ensures calendar == null && error == None && loading
    {
      calendar := null;
      error := None;
      loading := true;
    }

    /** Looks up the calendar by share token. `loadFailed` stands for the store query failing.
        With no match the error is set and no calendar is loaded; with several the first wins. */
    method FetchCalendar(calendars: seq<Calendar>, token: string, loadFailed: bool)
      requires Valid()
      requires forall c :: c in calendars ==> c.Valid()
      modifies this
      ensures Valid()
      ensures !loading
      ensures loadFailed ==> error == Some(LoadFailedMessage) && calendar == old(calendar)
      ensures !loadFailed && FirstMatch(Tokens(calendars), token).None? ==>
                error == Some(InvalidLinkMessage) && calendar == old(calendar)
      ensures !loadFailed && FirstMatch(Tokens(calendars), token).Some? ==>
                calendar == calendars[FirstMatch(Tokens(calendars), token).value] && error == old(error)
    {
      var found := FirstMatch(Tokens(calendars), token);
      if loadFailed {
        error := Some(LoadFailedMessage);
      } else if found.None? {
        error := Some(InvalidLinkMessage);
      } else {
        calendar := calendars[found.value];
      }
      loading := false;
      assert Tokens(calendars) == old(Tokens(calendars));
    }

    /** Files the visitor's request on the loaded calendar; with no calendar loaded nothing
        happens. The interval is the selected slot's, stored without any check. */
    method HandleBookingSubmit(name: string, email: string, message: string, start: Instant, end: Instant)
      returns (id: Option<DocId>)
      requires Valid()
      modifies calendar
      ensures Valid()
      ensures calendar == null ==> id == None
      ensures calendar != null ==>
                && id.Some?
                && id.value !in old(calendar.requests)
                && calendar.requests == old(calendar.requests)[id.value := Request(name, email, message, start, end, Status.Pending)]
                && calendar.events == old(calendar.events)
                && calendar.shareToken == old(calendar.shareToken)
    {
      if calendar == null {
        return None;
      }
      var newId := calendar.SubmitBookingRequest(name, email, message, start, end);
      id := Some(newId);
    }
  }

}
