/**
 * The timeline component's state: the six slots it keeps, the handlers that
 * update them, and the effect that recomputes the displayed list.
 */
module App {
  import opened Wrappers
  import opened Text
  import opened Records
  import opened YearSort
  import opened Engine

  /**
   * Clicking event `e`: collapses it when it is the expanded one, and
   * otherwise expands it in place of whatever was expanded.
   */
  function Toggled(current: Option<EventRecord>, e: EventRecord): (r: Option<EventRecord>)
    ensures r == None <==> current == Some(e)
    ensures r != None ==> r == Some(e)
  {
    if current == Some(e) then None else Some(e)
  }

  /** Clicking an event twice collapses it, whatever was expanded before, unless it was that event. */
  lemma ClickTwice(current: Option<EventRecord>, e: EventRecord)
    ensures current != Some(e) ==> Toggled(Toggled(current, e), e) == None
    ensures current == Some(e) ==> Toggled(Toggled(current, e), e) == Some(e)
  {
  }

  /** Clicking `a` and then a different `b` leaves only `b` expanded. */
  lemma ClickThenOther(current: Option<EventRecord>, a: EventRecord, b: EventRecord)
    requires a != b
    ensures Toggled(Toggled(current, a), b) == Some(b)
  {
  }

  /** The initial display, empty, is what the engine computes from the initial state. */
  lemma InitialViewCurrent()
    ensures View([], "", true) == []
  {
  }

  class Timeline {
    /** The groups as loaded from the data file; changed only by `Load`. */
    var events: seq<YearGroup>
    /** The list on screen. */
    var filteredEvents: seq<YearGroup>
    /** The expanded event, if any. */
    var selectedEvent: Option<EventRecord>
    /** The picture shown enlarged, if any. */
    var selectedImage: Option<string>
    /** The text in the search box. */
    var filterText: string
    /** The sort direction. */
    var isAscending: bool

    /** The list on screen is the one the engine computes from the current inputs. */
    ghost predicate ViewCurrent()
      reads this
    {
      filteredEvents == View(events, filterText, isAscending)
    }

    /** The initial state: nothing loaded, nothing selected, empty query, ascending. */
    constructor ()
      ensures events == [] && filteredEvents == []
      ensures selectedEvent == None && selectedImage == None
      ensures filterText == "" && isAscending
    {
      events := [];
      filteredEvents := [];
      selectedEvent := None;
      selectedImage := None;
      filterText := "";
      isAscending := true;
    }

    /** The data file has arrived: both the source and the display are set to it. */
    method Load(data: seq<YearGroup>)
      modifies this`events, this`filteredEvents
      ensures events == data && filteredEvents == data
    {
      events := data;
      filteredEvents := data;
    }

    /**
     * The effect that runs whenever the query, the source or the direction
     * changes: copies the source, narrows it by era or by text, sorts the copy
     * in place and shows it. Only the displayed list changes.
     */
    method Recompute()
      modifies this`filteredEvents
      ensures ViewCurrent()
    {
      var working := events;
      if filterText != "" {
        var input := ToLower(filterText);
        if input in Eras {
          working := EraFilter(events, Eras[input]);
        } else {
          working := TextFilter(events, filterText);
        }
      }
      assert working == WorkingSet(events, filterText);
      var updated := new YearGroup[|working|](i requires 0 <= i < |working| => working[i]);
      assert updated[..] == working;
      SortInPlace(updated, isAscending);
      filteredEvents := updated[..];
    }

    /** The search box's change handler. */
    method SetFilterText(text: string)
      modifies this`filterText
      ensures filterText == text
    {
      filterText := text;
    }

    /** `handleEventClick`: toggles which single event is expanded. */
    method EventClick(e: EventRecord)
      modifies this`selectedEvent
      ensures selectedEvent == Toggled(old(selectedEvent), e)
      ensures ViewCurrent() <==> old(ViewCurrent())
    {
      selectedEvent := Toggled(selectedEvent, e);
    }

    /** `handleClearFilter`: empties the query. */
    method ClearFilter()
      modifies this`filterText
      ensures filterText == ""
    {
      filterText := "";
    }

    /** `toggleSortOrder`: flips the sort direction. */
    method ToggleSortOrder()
      modifies this`isAscending
      ensures isAscending == !old(isAscending)
    {
      isAscending := !isAscending;
    }

    /**
     * `handleImageClick`: enlarges a picture. The avatar stops the click from
     * reaching the event, so the expanded event stays as it was.
     */
    method ImageClick(image: string)
      modifies this`selectedImage
      ensures selectedImage == Some(image)
      ensures ViewCurrent() <==> old(ViewCurrent())
    {
      selectedImage := Some(image);
    }

    /** `handleCloseDialog`: closes the enlarged picture. */
    method CloseDialog()
      modifies this`selectedImage
      ensures selectedImage == None
      ensures ViewCurrent() <==> old(ViewCurrent())
    {
      selectedImage := None;
    }
  }

  /**
   * Clicking an event twice collapses it; clicking `a` then `b` leaves `b`
   * expanded; opening a picture keeps that; closing it clears the picture only.
   */
  method ClickSequence(a: EventRecord, b: EventRecord, image: string)
    returns (twice: Option<EventRecord>, other: Option<EventRecord>,
             withImage: Option<EventRecord>, shown: Option<string>, closed: Option<string>)
    requires a != b
    ensures twice == None && other == Some(b)
    ensures withImage == Some(b) && shown == Some(image) && closed == None
  {
    var t := new Timeline();
    t.EventClick(a);
    t.EventClick(a);
    twice := t.selectedEvent;
    t.EventClick(a);
    t.EventClick(b);
    other := t.selectedEvent;
    t.ImageClick(image);
    withImage, shown := t.selectedEvent, t.selectedImage;
    t.CloseDialog();
    closed := t.selectedImage;
  }

  /** A fresh timeline that has loaded `data`, been given `query` and shows the result, ascending. */
  method Typed(data: seq<YearGroup>, query: string) returns (t: Timeline)
    ensures fresh(t)
    ensures t.events == data && t.filterText == query && t.isAscending
    ensures t.ViewCurrent()
  {
    t := new Timeline();
    t.Load(data);
    t.SetFilterText(query);
    t.Recompute();
  }

  /**
   * Loading, typing a query and flipping the direction: the list shown before
   * and after the flip holds the same groups, ascending before and descending after.
   */
  method FlipSequence(data: seq<YearGroup>, query: string)
    returns (before: seq<YearGroup>, after: seq<YearGroup>)
    ensures multiset(before) == multiset(after)
    ensures forall i, j :: 0 <= i < j < |before| ==> before[i].year <= before[j].year
    ensures forall i, j :: 0 <= i < j < |after| ==> after[i].year >= after[j].year
  {
    var t := Typed(data, query);
    before := t.filteredEvents;
    t.ToggleSortOrder();
    t.Recompute();
    after := t.filteredEvents;
    assert after == View(data, query, false);
    FlippedViews(data, query, before, after);
  }

  /** The two displays of one query, ascending and descending. */
  lemma FlippedViews(data: seq<YearGroup>, query: string, before: seq<YearGroup>, after: seq<YearGroup>)
    requires before == View(data, query, true) && after == View(data, query, false)
    ensures multiset(before) == multiset(after)
    ensures forall i, j :: 0 <= i < j < |before| ==> before[i].year <= before[j].year
    ensures forall i, j :: 0 <= i < j < |after| ==> after[i].year >= after[j].year
  {
    ViewFlip(data, query);
    ViewOrdered(data, query, true);
    ViewOrdered(data, query, false);
  }
}
