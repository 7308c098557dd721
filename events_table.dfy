/** The events table: the status badge of each row and the edit link. */
module EventsTable {
  import opened Wrappers
  import opened EventTypes
  import JsText
  import Decimal
  import EventsPage

  const FinishedLabel := "Tugagan"
  const EndingLabel := "Tugayapti"
  const ActiveLabel := "Faol"
  const InactiveLabel := "Faol emas"

  /** A badge: its `label` text and its CSS classes. */
  datatype Status = Status(text: string, className: string)

  /**
   * `getEventStatus`: no badge without finish-time information; otherwise exactly
   * one label, chosen by finished, then ending, then active.
   */
  function GetEventStatus(e: Event): (r: Option<Status>)
    ensures r.None? <==> e.formattedFinishDate.None?
    ensures r.Some? ==>
      var f := e.formattedFinishDate.value;
      (r.value.text == FinishedLabel <==> f.isFinished)
      && (r.value.text == EndingLabel <==> !f.isFinished && f.isEnding)
      && (r.value.text == ActiveLabel <==> !f.isFinished && !f.isEnding && e.isActive)
      && (r.value.text == InactiveLabel <==> !f.isFinished && !f.isEnding && !e.isActive)
  {
    match e.formattedFinishDate
    case None => None
    case Some(f) =>
      if f.isFinished then Some(Status(FinishedLabel, "text-gray-500 bg-gray-100"))
      else if f.isEnding then Some(Status(EndingLabel, "text-amber-700 bg-amber-50"))
      else if e.isActive then Some(Status(ActiveLabel, "text-green-700 bg-green-50"))
      else Some(Status(InactiveLabel, "text-red-700 bg-red-50"))
  }

  /**
   * For an event with finish-time information, the page's "active" tab keeps it
   * exactly when the table labels it "Faol", and the "finished" tab exactly when
   * the label is "Tugagan".
   */
  lemma TabsAgreeWithStatus(e: Event)
    requires e.formattedFinishDate.Some?
    ensures EventsPage.KeepInTab(EventsPage.ActiveTab, e) <==> GetEventStatus(e).value.text == ActiveLabel
    ensures EventsPage.KeepInTab(EventsPage.FinishedTab, e) <==> GetEventStatus(e).value.text == FinishedLabel
  {
  }

  /** Every row the "active" tab shows is labelled "Faol", every row of "finished" "Tugagan". */
  lemma FilteredRowsAgreeWithStatus(events: seq<Event>, endingSoon: seq<Event>)
    ensures forall e ::
      (e in EventsPage.FilteredEvents(EventsPage.ActiveTab, events, endingSoon) && e.formattedFinishDate.Some?)
      ==> GetEventStatus(e).value.text == ActiveLabel
    ensures forall e ::
      (e in EventsPage.FilteredEvents(EventsPage.FinishedTab, events, endingSoon) && e.formattedFinishDate.Some?)
      ==> GetEventStatus(e).value.text == FinishedLabel
  {
    forall e | e in EventsPage.FilteredEvents(EventsPage.ActiveTab, events, endingSoon)
      ensures EventsPage.KeepInTab(EventsPage.ActiveTab, e)
    {
      var r := EventsPage.FilteredEvents(EventsPage.ActiveTab, events, endingSoon);
      var i :| 0 <= i < |r| && r[i] == e;
    }
    forall e | e in EventsPage.FilteredEvents(EventsPage.FinishedTab, events, endingSoon)
      ensures EventsPage.KeepInTab(EventsPage.FinishedTab, e)
    {
      var r := EventsPage.FilteredEvents(EventsPage.FinishedTab, events, endingSoon);
      var i :| 0 <= i < |r| && r[i] == e;
    }
  }

  const EditPrefix := "/event/edit/"

  /** The route the edit icon navigates to. */
  function EditRoute(id: int): (r: string)
    ensures JsText.StartsWith(r, EditPrefix) && |r| > |EditPrefix|
  {
    EditPrefix + Decimal.ShowInt(id)
  }

  /** The route names its event: reading the number after the prefix gives back the id. */
  lemma EditRouteRoundTrip(id: int)
    ensures Decimal.ParseInt(EditRoute(id)[|EditPrefix|..]) == Some(id)
  {
    assert EditRoute(id)[|EditPrefix|..] == Decimal.ShowInt(id);
    Decimal.ShowIntRoundTrip(id);
  }

  /** Different events get different routes. */
  lemma EditRouteInjective(a: int, b: int)
    requires EditRoute(a) == EditRoute(b)
    ensures a == b
  {
    EditRouteRoundTrip(a);
    EditRouteRoundTrip(b);
  }
}
