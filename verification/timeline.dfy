/** The timeline panel's own state (src/components/Timeline.tsx): the
    event dialog, the event it shows, and the set of collapsed events.
    Callbacks into the page become the page operations they are wired to
    (`handleAddEvent`, `handleUpdateEvent`); the toast `onSelectEvent`
    raises is returned as the event it is called with. */
module TimelinePanel {
  import opened Wrappers
  import opened Events
  import opened GraphModel

  datatype Panel = Panel(dialogOpen: bool, selected: Option<Event>, collapsed: set<string>)

  /** The state on first render: closed, nothing selected, nothing collapsed. */
  const Initial := Panel(false, None, {})

  /** `onToggleCollapse(id)`: a copy of the set with the id's membership
      flipped. */
  function ToggleCollapse(collapsed: set<string>, id: string): (r: set<string>)
    ensures id in r <==> id !in collapsed
    ensures forall x :: x != id ==> (x in r <==> x in collapsed)
  {
    if id in collapsed then collapsed - {id} else collapsed + {id}
  }

  /** Toggling the same event twice restores the set. */
  lemma ToggleTwice(collapsed: set<string>, id: string)
    ensures ToggleCollapse(ToggleCollapse(collapsed, id), id) == collapsed
  {
    var once := ToggleCollapse(collapsed, id);
    var twice := ToggleCollapse(once, id);
    assert forall x :: x in twice <==> x in collapsed;
  }

  /** Toggles of different events do not interfere. */
  lemma ToggleCommutes(collapsed: set<string>, a: string, b: string)
    ensures ToggleCollapse(ToggleCollapse(collapsed, a), b) == ToggleCollapse(ToggleCollapse(collapsed, b), a)
  {
    var ab := ToggleCollapse(ToggleCollapse(collapsed, a), b);
    var ba := ToggleCollapse(ToggleCollapse(collapsed, b), a);
    assert forall x :: x in ab <==> x in ba;
  }

  /** `handleDialogClose`: the dialog closes and forgets its event. */
  function CloseDialog(p: Panel): (r: Panel)
    ensures !r.dialogOpen && r.selected.None?
    ensures r.collapsed == p.collapsed
  {
    Panel(false, None, p.collapsed)
  }

  /** `handleEventClick(e)`: opens the dialog on the clicked event and
      notifies the page with it. */
  function ClickEvent(p: Panel, e: Event): (r: (Panel, Option<Event>))
    ensures r.0.dialogOpen && r.0.selected == Some(e) && r.1 == Some(e)
    ensures r.0.collapsed == p.collapsed
  {
    (Panel(true, Some(e), p.collapsed), Some(e))
  }

  /** The imperative `selectEvent(id)`: an unknown id does nothing; a known
      one opens the dialog on the first event carrying it (closing an open
      dialog first, which React batches into the same update) and notifies
      the page. */
  function SelectEvent(p: Panel, events: seq<Event>, id: string): (r: (Panel, Option<Event>))
    ensures !HasId(events, id) ==> r == (p, None)
    ensures HasId(events, id) ==>
      && r.0.dialogOpen && r.0.collapsed == p.collapsed
      && r.0.selected.Some? && r.0.selected.value.id == id && r.0.selected.value in events
      && r.1 == r.0.selected
  {
    match Find(events, id)
    case None => (p, None)
    case Some(e) => ClickEvent(p, e)
  }

  /** Selecting by id is clicking the first event with that id. */
  lemma SelectIsFirstClick(p: Panel, events: seq<Event>, i: nat)
    requires i < |events|
    requires forall j :: 0 <= j < i ==> events[j].id != events[i].id
    ensures SelectEvent(p, events, events[i].id) == ClickEvent(p, events[i])
  {
    var id := events[i].id;
    assert HasId(events, id);
    var found := Find(events, id).value;
    var k :| 0 <= k < |events| && events[k] == found && (forall j :: 0 <= j < k ==> events[j].id != id);
    assert found.id == id;
    if k < i {
      assert events[k].id == id;
    } else if i < k {
      assert events[i].id == id;
    }
    assert found == events[i];
  }

  /** `handleSave(e)`: the page merges the dialog's event into the store
      (`handleUpdateEvent`), then the dialog closes and forgets its event. */
  function Save(p: Panel, events: seq<Event>, e: Event): (r: (seq<Event>, Panel))
    ensures |r.0| == |events|
    ensures forall i :: 0 <= i < |events| && events[i].id != e.id ==> r.0[i] == events[i]
    ensures !r.1.dialogOpen && r.1.selected.None? && r.1.collapsed == p.collapsed
  {
    (UpdateEvent(events, PatchOf(e)), CloseDialog(p))
  }

  /** The stored event becomes the dialog's event unless the dialog tried
      to clear a key that an update cannot clear. */
  lemma SaveStoresEdit(p: Panel, events: seq<Event>, e: Event, i: nat)
    requires i < |events| && events[i].id == e.id
    ensures !LosesField(events[i], e) ==> Save(p, events, e).0[i] == e
    ensures LosesField(events[i], e) ==> Save(p, events, e).0[i] != e
  {
    if LosesField(events[i], e) {
      MergeLosesField(events[i], e);
    } else {
      MergeKeepsAll(events[i], e);
    }
  }

  /** `handleAddEvent(parent)`: the page appends a fresh event and returns
      its id; the panel then looks that id up in the `events` it was
      rendered with, and opens the dialog only if it is found there. */
  function AddFromPanel(p: Panel, events: seq<Event>, parent: Option<string>, freshId: string, nowIso: string)
    : (r: (seq<Event>, Panel))
    ensures r.0 == AddEvent(events, parent, freshId, nowIso).0
    ensures freshId != "" && HasId(events, freshId) ==>
      r.1.dialogOpen && r.1.selected.Some? && r.1.selected.value.id == freshId && r.1.collapsed == p.collapsed
    ensures !(freshId != "" && HasId(events, freshId)) ==> r.1 == p
  {
    var (store, id) := AddEvent(events, parent, freshId, nowIso);
    if id != "" then
      match Find(events, id)
      case Some(e) => (store, Panel(true, Some(e), p.collapsed))
      case None => (store, p)
    else (store, p)
  }

  /** With a fresh id the lookup runs against the list without the new
      event, so the dialog never opens on it: the new event is stored but
      the panel is left as it was. */
  lemma AddNeverOpensDialog(p: Panel, events: seq<Event>, parent: Option<string>, freshId: string, nowIso: string)
    requires !HasId(events, freshId)
    ensures AddFromPanel(p, events, parent, freshId, nowIso).1 == p
    ensures HasId(AddFromPanel(p, events, parent, freshId, nowIso).0, freshId)
  {
    var store := AddFromPanel(p, events, parent, freshId, nowIso).0;
    assert store[|events|].id == freshId;
  }
}
