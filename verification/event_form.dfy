/** The event form of the event dialog
    (src/components/timeline/event-dialog/EventForm.tsx): the timestamp
    normalisation for the `datetime-local` input, the parent picker, and
    the handlers that edit one field of the event. The current time and
    the `Date` parser are parameters. */
module EventForm {
  import opened Wrappers
  import opened Js
  import opened Events
  import GraphModel
  import CascadeDelete

  /** The shape `toISOString().slice(0, 16)` gives: `YYYY-MM-DDTHH:mm`,
      with the `T` at index 10. */
  predicate InputShaped(s: string) {
    |s| == 16 && s[10] == 'T'
  }

  /** A clock or parser output that slices to an input-shaped value. */
  predicate IsoLike(s: string) {
    |s| >= 16 && s[10] == 'T'
  }

  /** `formatTimestampForInput(ts)` as written. `nowIso` is
      `new Date().toISOString()`; `parse(ts)` is
      `new Date(ts).toISOString()`, or `None` when the date is invalid (its
      time is `NaN`). A `T` anywhere in a long enough string counts as
      "already in the correct format". */
  function FormatTimestampForInput(ts: string, nowIso: string, parse: string -> Option<string>): (r: string)
    ensures ts == "" ==> r == Take(nowIso, 16)
    ensures ts != "" && 'T' in ts && |ts| >= 16 ==> |r| == 16 && r == ts[..16]
    ensures ts != "" && !('T' in ts && |ts| >= 16) ==>
      if parse(ts).None? then r == Take(nowIso, 16) else r == Take(parse(ts).value, 16)
  {
    if ts == "" then Take(nowIso, 16)
    else if 'T' in ts && |ts| >= 16 then ts[..16]
    else
      match parse(ts)
      case None => Take(nowIso, 16)
      case Some(iso) => Take(iso, 16)
  }

  /** The format test at `includes('T')` lets through long strings whose `T` is not the date/time
      separator, such as the `Date.prototype.toString` form
      "Mon Jan 01 2024 10:00:00 GMT+0000" (its `T` is in "GMT"): they are
      cut to 16 characters instead of being parsed, and the input gets a
      value that is not `YYYY-MM-DDTHH:mm`. */
  lemma FormatCutsNonIso(ts: string, nowIso: string, parse: string -> Option<string>)
    requires 'T' in ts && |ts| >= 16 && ts[10] != 'T'
    ensures !InputShaped(FormatTimestampForInput(ts, nowIso, parse))
  {
  }

  lemma FormatCutsDateString(nowIso: string, parse: string -> Option<string>)
    ensures FormatTimestampForInput("Mon Jan 01 2024 10:00:00 GMT+0000", nowIso, parse) == "Mon Jan 01 2024 "
  {
    var ts := "Mon Jan 01 2024 10:00:00 GMT+0000";
    assert ts[27] == 'T';
  }

  /** `formatTimestampForInput` with the format check it evidently means:
      the separator `T` at index 10. */
  function FormatTimestampForInputIso(ts: string, nowIso: string, parse: string -> Option<string>): (r: string)
    ensures ts == "" ==> r == Take(nowIso, 16)
    ensures IsoLike(ts) ==> r == ts[..16]
    ensures ts != "" && !IsoLike(ts) ==>
      if parse(ts).None? then r == Take(nowIso, 16) else r == Take(parse(ts).value, 16)
  {
    if ts == "" then Take(nowIso, 16)
    else if IsoLike(ts) then ts[..16]
    else
      match parse(ts)
      case None => Take(nowIso, 16)
      case Some(iso) => Take(iso, 16)
  }

  /** When the clock and the parser produce ISO strings, the corrected
      version always shows `YYYY-MM-DDTHH:mm`, and showing its own output
      again changes nothing. */
  lemma FormatIsoShaped(ts: string, nowIso: string, parse: string -> Option<string>)
    requires IsoLike(nowIso)
    requires forall s :: parse(s).Some? ==> IsoLike(parse(s).value)
    ensures InputShaped(FormatTimestampForInputIso(ts, nowIso, parse))
    ensures var shown := FormatTimestampForInputIso(ts, nowIso, parse);
      FormatTimestampForInputIso(shown, nowIso, parse) == shown
  {
    var shown := FormatTimestampForInputIso(ts, nowIso, parse);
    assert IsoLike(shown);
    assert shown[..16] == shown;
  }

  /** The two versions agree on every ISO-shaped or empty timestamp and on
      every timestamp without a `T`. */
  lemma FormatVersionsAgree(ts: string, nowIso: string, parse: string -> Option<string>)
    requires ts == "" || IsoLike(ts) || 'T' !in ts
    ensures FormatTimestampForInput(ts, nowIso, parse) == FormatTimestampForInputIso(ts, nowIso, parse)
  {
    if IsoLike(ts) {
      assert ts[10] in ts;
    }
  }

  // ---------------------------------------------------------------------
  // Single-field edits.

  /** The timestamp input's `onChange`. */
  function SetTimestamp(e: Event, v: string): (r: Event)
    ensures r.timestamp == v && r.(timestamp := e.timestamp) == e
  {
    e.(timestamp := v)
  }

  /** The title input's `onChange`. */
  function SetTitle(e: Event, v: string): (r: Event)
    ensures r.title == v && r.(title := e.title) == e
  {
    e.(title := v)
  }

  /** The description textarea's `onChange`. */
  function SetDescription(e: Event, v: string): (r: Event)
    ensures r.description == v && r.(description := e.description) == e
  {
    e.(description := v)
  }

  /** `handleArtifactsChange`. */
  function SetArtifacts(e: Event, arts: seq<Artifact>): (r: Event)
    ensures r.artifacts == arts && r.(artifacts := e.artifacts) == e
  {
    e.(artifacts := arts)
  }

  /** Edits of different fields commute, and a later edit of the same
      field wins. */
  lemma EditsCommute(e: Event, ts: string, t: string, d: string, arts: seq<Artifact>)
    ensures SetTitle(SetTimestamp(e, ts), t) == SetTimestamp(SetTitle(e, t), ts)
    ensures SetDescription(SetArtifacts(e, arts), d) == SetArtifacts(SetDescription(e, d), arts)
    ensures SetTitle(SetTitle(e, d), t) == SetTitle(e, t)
  {
  }

  // ---------------------------------------------------------------------
  // The parent picker.

  /** The picker's options: every event except the edited one, in order.
      Only the event itself is left out; its descendants are offered. */
  function ParentOptions(events: seq<Event>, self: Event): (r: seq<Event>)
    ensures |r| <= |events|
  {
    if events == [] then []
    else (if events[0].id != self.id then [events[0]] else []) + ParentOptions(events[1..], self)
  }

  /** The options are exactly the events with another id. */
  lemma {:induction false} ParentOptionsMember(events: seq<Event>, self: Event, x: Event)
    ensures x in ParentOptions(events, self) <==> x in events && x.id != self.id
  {
    if events != [] {
      ParentOptionsMember(events[1..], self, x);
      assert events == [events[0]] + events[1..];
    }
  }

  /** The picker lists the options in store order: the options of a
      concatenation are those of each part, in turn. */
  lemma {:induction false} ParentOptionsAppend(a: seq<Event>, b: seq<Event>, self: Event)
    ensures ParentOptions(a + b, self) == ParentOptions(a, self) + ParentOptions(b, self)
  {
    if a == [] {
      assert a + b == b;
    } else {
      var t := a[1..];
      var h := if a[0].id != self.id then [a[0]] else [];
      ParentOptionsAppend(t, b, self);
      assert (a + b)[0] == a[0] && (a + b)[1..] == t + b;
      assert ParentOptions(a + b, self) == h + ParentOptions(t + b, self);
      assert ParentOptions(a, self) == h + ParentOptions(t, self);
    }
  }

  /** A child of the edited event is offered as its parent. */
  lemma ChildIsOffered(events: seq<Event>, self: Event, c: Event)
    requires c in events && c.parentId == Some(self.id) && c.id != self.id
    ensures c in ParentOptions(events, self)
  {
    ParentOptionsMember(events, self, c);
  }

  /** Choosing a child as the parent and saving closes a parent cycle; the
      page's delete of the event then leaves the list as it is, since its
      descendant walk never ends. */
  lemma PickChildBlocksDelete(events: seq<Event>, i: nat, c: nat)
    requires UniqueIds(events) && i < |events| && c < |events|
    requires events[c].parentId == Some(events[i].id) && c != i
    requires events[c].id != "none"
    ensures var saved := GraphModel.UpdateEvent(events, GraphModel.PatchOf(PickParent(events[i], events[c].id)));
      CascadeDelete.DeleteEvent(saved, events[i].id) == saved
  {
    var picked := PickParent(events[i], events[c].id);
    var saved := GraphModel.UpdateEvent(events, GraphModel.PatchOf(picked));
    assert saved[c] == events[c];
    assert saved[i].parentId == Some(events[c].id) && saved[i].id == events[i].id;
    assert CascadeDelete.Reaches(saved, c, events[i].id, 0);
    assert CascadeDelete.Reaches(saved, i, saved[c].id, 0);
    assert CascadeDelete.Reaches(saved, c, saved[c].id, 1);
    CascadeDelete.DeleteOnCycle(saved, events[i].id, c, 0, 1);
  }

  /** The select's value: `event.parentId || 'none'`. */
  function PickerValue(e: Event): (r: string)
    ensures r != ""
    ensures Truthy(e.parentId) ==> r == e.parentId.value
    ensures !Truthy(e.parentId) ==> r == "none"
  {
    if Truthy(e.parentId) then e.parentId.value else "none"
  }

  /** The select's `onValueChange(value)`: "none" removes the parent; any
      other value becomes the parent id. Nothing else changes. */
  function PickParent(e: Event, value: string): (r: Event)
    ensures r.parentId.None? <==> value == "none"
    ensures r.parentId.Some? ==> r.parentId.value == value
    ensures r.(parentId := e.parentId) == e
  {
    e.(parentId := if value == "none" then None else Some(value))
  }

  /** Choosing what the select shows keeps the event, except that an empty
      parent id reads as "none" and is dropped. An id that is literally
      "none" cannot be chosen. */
  lemma PickShownValue(e: Event)
    ensures e.parentId != Some("") && e.parentId != Some("none") ==> PickParent(e, PickerValue(e)) == e
    ensures e.parentId == Some("") ==> PickParent(e, PickerValue(e)).parentId.None?
    ensures PickParent(e, "none").parentId != Some("none")
  {
  }

  /** The trigger's text: the parent's title, "Untitled Event" when the
      title is empty or no event carries the parent id, and "None" without
      a parent. */
  function ParentText(e: Event, events: seq<Event>): (r: string)
    ensures !Truthy(e.parentId) ==> r == "None"
    ensures Truthy(e.parentId) && !HasId(events, e.parentId.value) ==> r == "Untitled Event"
    ensures Truthy(e.parentId) && HasId(events, e.parentId.value) ==>
      exists i :: 0 <= i < |events| && events[i].id == e.parentId.value && r == DisplayTitle(events[i])
        && forall j :: 0 <= j < i ==> events[j].id != e.parentId.value
  {
    if Truthy(e.parentId) then
      match Find(events, e.parentId.value)
      case Some(p) => DisplayTitle(p)
      case None => "Untitled Event"
    else "None"
  }
}
