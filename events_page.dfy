/** The events list page: tab filtering, the edit lookup and the delete confirmation. */
module EventsPage {
  import opened Wrappers
  import opened EventTypes

  const AllTab := "all"
  const EndingSoonTab := "ending-soon"
  const ActiveTab := "active"
  const FinishedTab := "finished"
  const NotFoundMessage := "Tanlov topilmadi!"

  /** `event.formattedFinishDate?.isFinished`, with an absent record read as false. */
  predicate IsFinished(e: Event)
  {
    e.formattedFinishDate.Some? && e.formattedFinishDate.value.isFinished
  }

  /** `event.formattedFinishDate?.isEnding`, with an absent record read as false. */
  predicate IsEnding(e: Event)
  {
    e.formattedFinishDate.Some? && e.formattedFinishDate.value.isEnding
  }

  /** The filter a tab other than "all" and "ending-soon" applies to the main list. */
  predicate KeepInTab(tab: string, e: Event)
  {
    if tab == ActiveTab then e.isActive && !IsFinished(e) && !IsEnding(e)
    else if tab == FinishedTab then IsFinished(e)
    else true
  }

  /** `events.filter(...)` for one tab. */
  function FilterTab(tab: string, events: seq<Event>): (r: seq<Event>)
    ensures |r| <= |events|
    ensures forall i :: 0 <= i < |r| ==> KeepInTab(tab, r[i])
  {
    if events == [] then []
    else if KeepInTab(tab, events[0]) then [events[0]] + FilterTab(tab, events[1..])
    else FilterTab(tab, events[1..])
  }

  /** `getFilteredEvents`: the list the table shows for the current tab. */
  function FilteredEvents(tab: string, events: seq<Event>, endingSoon: seq<Event>): (r: seq<Event>)
    ensures tab == EndingSoonTab ==> r == endingSoon
    ensures tab == AllTab ==> r == events
    ensures tab != EndingSoonTab && tab != AllTab ==> |r| <= |events|
  {
    if tab == EndingSoonTab then endingSoon
    else if tab == AllTab then events
    else FilterTab(tab, events)
  }

  /** `r` is `s` with some elements left out and the rest in their original order. */
  ghost predicate SubsequenceOf<T>(r: seq<T>, s: seq<T>)
    decreases |s|
  {
    r == [] || (s != [] && ((r[0] == s[0] && SubsequenceOf(r[1..], s[1..])) || SubsequenceOf(r, s[1..])))
  }

  lemma {:induction false} FilterTabIsSubsequence(tab: string, events: seq<Event>)
    ensures SubsequenceOf(FilterTab(tab, events), events)
    decreases |events|
  {
    if events != [] {
      FilterTabIsSubsequence(tab, events[1..]);
      var r := FilterTab(tab, events);
      if KeepInTab(tab, events[0]) {
        assert r[0] == events[0] && r[1..] == FilterTab(tab, events[1..]);
      }
    }
  }

  lemma HeadTail<T>(s: seq<T>)
    requires s != []
    ensures s == [s[0]] + s[1..]
  {
  }

  /** The filter keeps every copy of a kept event and no copy of any other. */
  lemma {:induction false} FilterTabCounts(tab: string, events: seq<Event>)
    ensures forall e :: multiset(FilterTab(tab, events))[e] == if KeepInTab(tab, e) then multiset(events)[e] else 0
    decreases |events|
  {
    if events != [] {
      FilterTabCounts(tab, events[1..]);
      HeadTail(events);
      assert multiset(events) == multiset{events[0]} + multiset(events[1..]);
    }
  }

  /**
   * Outside "all" and "ending-soon", the tab shows an order-preserving sub-list of
   * the events, holding exactly the events the tab's rule keeps.
   */
  lemma FilteredEventsExact(tab: string, events: seq<Event>, endingSoon: seq<Event>)
    requires tab != EndingSoonTab && tab != AllTab
    ensures SubsequenceOf(FilteredEvents(tab, events, endingSoon), events)
    ensures forall e ::
      multiset(FilteredEvents(tab, events, endingSoon))[e] == if KeepInTab(tab, e) then multiset(events)[e] else 0
  {
    FilterTabIsSubsequence(tab, events);
    FilterTabCounts(tab, events);
  }

  lemma {:induction false} FilterTabKeepsAll(tab: string, events: seq<Event>)
    requires tab != ActiveTab && tab != FinishedTab
    ensures FilterTab(tab, events) == events
    decreases |events|
  {
    if events != [] {
      FilterTabKeepsAll(tab, events[1..]);
      HeadTail(events);
    }
  }

  /** A tab the page does not know shows the whole list. */
  lemma UnknownTabShowsAll(tab: string, events: seq<Event>, endingSoon: seq<Event>)
    requires tab !in {AllTab, EndingSoonTab, ActiveTab, FinishedTab}
    ensures FilteredEvents(tab, events, endingSoon) == events
  {
    FilterTabKeepsAll(tab, events);
  }

  /** The index of the first event with that id, or -1. */
  function FirstIndexOfId(events: seq<Event>, id: int): (k: int)
    ensures -1 <= k < |events|
    ensures k >= 0 ==> events[k].id == id && forall i :: 0 <= i < k ==> events[i].id != id
    ensures k == -1 <==> forall i :: 0 <= i < |events| ==> events[i].id != id
  {
    if events == [] then -1
    else if events[0].id == id then 0
    else
      var k := FirstIndexOfId(events[1..], id);
      if k == -1 then -1 else k + 1
  }

  /** `events.find(event => event.id === id)`: the first event with that id. */
  function FindById(events: seq<Event>, id: int): (r: Option<Event>)
    ensures r.None? <==> forall i :: 0 <= i < |events| ==> events[i].id != id
    ensures r.Some? ==> r.value.id == id && r.value in events
    ensures r.Some? ==>
      exists k :: 0 <= k < |events| && events[k] == r.value && forall i :: 0 <= i < k ==> events[i].id != id
  {
    var k := FirstIndexOfId(events, id);
    if k == -1 then None else Some(events[k])
  }

  /** The page's state: the fetched lists, the tab, the event opened for editing, and the effects requested. */
  class Page {
    var eventsData: seq<Event>
    var endingSoonData: seq<Event>
    var currentTab: string
    var event: Option<Event>
    /** Error toasts shown, oldest first. */
    var toasts: seq<string>
    /** Ids handed to the delete mutation, oldest first. */
    var deleteRequests: seq<int>

    /** A missing response (or one without `events`) is read as an empty list. */
    constructor(fetched: Option<seq<Event>>, endingSoonFetched: Option<seq<Event>>)
      ensures eventsData == fetched.GetOr([]) && endingSoonData == endingSoonFetched.GetOr([])
      ensures currentTab == AllTab && event == None && toasts == [] && deleteRequests == []
    {
      eventsData := fetched.GetOr([]);
      endingSoonData := endingSoonFetched.GetOr([]);
      currentTab := AllTab;
      event := None;
      toasts := [];
      deleteRequests := [];
    }

    function Shown(): seq<Event>
      reads this
    {
      FilteredEvents(currentTab, eventsData, endingSoonData)
    }

    method HandleTabChange(value: string)
      modifies this
      ensures currentTab == value
      ensures eventsData == old(eventsData) && endingSoonData == old(endingSoonData)
      ensures event == old(event) && toasts == old(toasts) && deleteRequests == old(deleteRequests)
    {
      currentTab := value;
    }

    /** Open the first event with this id for editing, or report that there is none. */
    method OnEditHandler(id: int)
      modifies this
      ensures FindById(old(eventsData), id).Some? ==>
        event == FindById(old(eventsData), id) && toasts == old(toasts)
      ensures FindById(old(eventsData), id).None? ==>
        event == old(event) && toasts == old(toasts) + [NotFoundMessage]
      ensures eventsData == old(eventsData) && endingSoonData == old(endingSoonData)
      ensures currentTab == old(currentTab) && deleteRequests == old(deleteRequests)
    {
      var found := FindById(eventsData, id);
      if found.None? {
        toasts := toasts + [NotFoundMessage];
        return;
      }
      event := found;
    }

    /** Ask for a deletion only when the user confirmed it. */
    method OnDeleteHandler(id: int, confirmed: bool)
      modifies this
      ensures deleteRequests == if confirmed then old(deleteRequests) + [id] else old(deleteRequests)
      ensures eventsData == old(eventsData) && endingSoonData == old(endingSoonData)
      ensures currentTab == old(currentTab) && event == old(event) && toasts == old(toasts)
    {
      if confirmed {
        deleteRequests := deleteRequests + [id];
      }
    }
  }
}
