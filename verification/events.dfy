/**
  The events showcase: picking an event card, RSVPing to it, and the
  price label on each card.
*/
module EventPage {
  import Text
  import Numerals
  import opened Options

  datatype Event = Event(
    id: int,
    name: string,
    category: string,
    location: string,
    startTime: string,
    cost: int,
    volunteer: bool,
    volunteerHours: int)

  /**
    The page state. The calendar date is kept as the timestamp text it was
    set from; parsing it into a date is left to the calendar widget.
  */
  datatype Page = Page(
    selected: Option<Event>,
    dialogOpen: bool,
    rsvpName: string,
    rsvps: seq<Event>,
    calendarDate: string)

  datatype RsvpOutcome = BlankName | NoEventSelected | Confirmed

  datatype Rsvp = Rsvp(page: Page, outcome: RsvpOutcome)

  /** The state on first render; the calendar shows the current time, passed in. */
  function InitialPage(now: string): Page {
    Page(None, false, "", [], now)
  }

  predicate HasEventWithId(list: seq<Event>, id: int) {
    exists e :: e in list && e.id == id
  }

  predicate DistinctIds(list: seq<Event>) {
    forall i, j :: 0 <= i < j < |list| ==> list[i].id != list[j].id
  }

  /** Clicking a card selects its event and opens the RSVP dialog. */
  function SelectEvent(page: Page, e: Event): (r: Page)
    ensures r.selected == Some(e) && r.dialogOpen
    ensures r.rsvps == page.rsvps && r.rsvpName == page.rsvpName && r.calendarDate == page.calendarDate
  {
    page.(selected := Some(e), dialogOpen := true)
  }

  /**
    The RSVP list update: an event whose id is already listed leaves the
    list as it is; any other event is appended at the end.
  */
  function AddRsvp(list: seq<Event>, e: Event): (r: seq<Event>)
    ensures HasEventWithId(list, e.id) ==> r == list
    ensures !HasEventWithId(list, e.id) ==> r == list + [e]
    ensures DistinctIds(list) ==> DistinctIds(r)
    ensures HasEventWithId(r, e.id)
  {
    if HasEventWithId(list, e.id) then list
    else
      var r := list + [e];
      assert r[|list|] == e && r[|list|] in r;
      r
  }

  /**
    The RSVP button. A blank name is refused and nothing changes. With no
    event selected the handler fails before changing anything. Otherwise
    the event is recorded, the calendar jumps to its start, the dialog
    closes and the name field is cleared.
  */
  function HandleRsvp(page: Page): (r: Rsvp)
    ensures Text.Trim(page.rsvpName) == [] ==> r == Rsvp(page, BlankName)
    ensures Text.Trim(page.rsvpName) != [] && page.selected.None? ==> r == Rsvp(page, NoEventSelected)
    ensures r.outcome == Confirmed <==> Text.Trim(page.rsvpName) != [] && page.selected.Some?
    ensures r.outcome == Confirmed ==>
      && r.page.rsvps == AddRsvp(page.rsvps, page.selected.value)
      && r.page.calendarDate == page.selected.value.startTime
      && !r.page.dialogOpen && r.page.rsvpName == ""
      && r.page.selected == page.selected
    ensures DistinctIds(page.rsvps) ==> DistinctIds(r.page.rsvps)
  {
    if Text.Trim(page.rsvpName) == [] then Rsvp(page, BlankName)
    else if page.selected.None? then Rsvp(page, NoEventSelected)
    else
      var e := page.selected.value;
      Rsvp(page.(rsvps := AddRsvp(page.rsvps, e), calendarDate := e.startTime,
                 dialogOpen := false, rsvpName := ""), Confirmed)
  }

  /** The price shown on a card: "Free" for a zero cost, otherwise "$" and the cost. */
  function CostLabel(cost: int): (shown: string)
    ensures shown == "Free" <==> cost == 0
    ensures cost != 0 ==> |shown| > 1 && shown[0] == '$' && Numerals.ParseInt(shown[1..]) == Some(cost)
    ensures cost != 0 ==> Numerals.IsCanonicalInt(shown[1..])
  {
    if cost == 0 then "Free"
    else
      var digits := Numerals.IntToString(cost);
      Numerals.ParseIntToString(cost);
      var shown := "$" + digits;
      assert shown[1..] == digits;
      shown
  }

  // ---------- Lemmas ----------

  /** Recording the same event twice is the same as recording it once. */
  lemma AddRsvpIdempotent(list: seq<Event>, e: Event)
    ensures AddRsvp(AddRsvp(list, e), e) == AddRsvp(list, e)
  {
  }

  /** Repeating an RSVP for an event already recorded leaves the list unchanged. */
  lemma RepeatRsvpKeepsList(page: Page)
    requires page.selected.Some? && HasEventWithId(page.rsvps, page.selected.value.id)
    ensures HandleRsvp(page).page.rsvps == page.rsvps
  {
  }

  /** From any list with distinct ids, any run of RSVP clicks keeps ids unique. */
  lemma {:induction false} RsvpsStayDistinct(page: Page, names: seq<string>, picks: seq<Event>)
    requires DistinctIds(page.rsvps)
    requires |names| == |picks|
    ensures DistinctIds(RunRsvps(page, names, picks).rsvps)
    decreases |names|
  {
    if |names| > 0 {
      RsvpsStayDistinct(page, names[..|names| - 1], picks[..|picks| - 1]);
    }
  }

  /** Selects each picked event, types the matching name, and presses RSVP, in order. */
  function RunRsvps(page: Page, names: seq<string>, picks: seq<Event>): Page
    requires |names| == |picks|
    decreases |names|
  {
    if |names| == 0 then page
    else
      var before := RunRsvps(page, names[..|names| - 1], picks[..|picks| - 1]);
      HandleRsvp(SelectEvent(before, picks[|picks| - 1]).(rsvpName := names[|names| - 1])).page
  }
}
