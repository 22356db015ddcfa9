/** Adding and updating events (`handleAddEvent`, `handleUpdateEvent` in
    src/pages/Index.tsx). The React state store becomes an explicit list
    threaded through each operation; the fresh uuid and the current time
    are parameters. */
module GraphModel {
  import opened Wrappers
  import opened Js
  import opened Events

  /** `handleAddEvent(parentId)`: appends an empty event and returns its id.
      `parent` is `None` for any argument that is not a string (the button
      handlers call it with no argument). */
  function AddEvent(events: seq<Event>, parent: Option<string>, freshId: string, nowIso: string)
    : (r: (seq<Event>, string))
    ensures |r.0| == |events| + 1 && r.0[..|events|] == events
    ensures r.1 == freshId && r.0[|events|].id == freshId
    ensures var e := r.0[|events|];
      && e.title == "" && e.description == "" && e.artifacts == []
      && e.parentId == parent
      && e.timestamp == Take(nowIso, 16)
      && e.tactic.None? && e.technique.None? && e.lateralMovementTarget.None?
      && e.order.None? && e.searchQuery.None? && e.rawLog.None? && e.attachedFile.None?
      && e.host.None? && e.user.None? && e.process.None? && e.sha256.None?
      && e.networkDetails.None? && e.lateralMovementSource.None? && e.initialView.None?
  {
    var e := Shell(freshId, Take(nowIso, 16), "", parent);
    (events + [e], e.id)
  }

  /** A fresh id keeps ids unique. */
  lemma AddKeepsIdsUnique(events: seq<Event>, parent: Option<string>, freshId: string, nowIso: string)
    requires UniqueIds(events)
    requires !HasId(events, freshId)
    ensures UniqueIds(AddEvent(events, parent, freshId, nowIso).0)
  {
  }

  /** The incoming record of an update after its JSON round trip: every key
      may be absent (`None`), since `undefined` values are dropped. */
  datatype EventPatch = EventPatch(
    id: string,
    timestamp: Option<string>,
    title: Option<string>,
    description: Option<string>,
    tactic: Option<string>,
    technique: Option<string>,
    parentId: Option<string>,
    artifacts: Option<seq<Artifact>>,
    order: Option<int>,
    searchQuery: Option<string>,
    rawLog: Option<string>,
    attachedFile: Option<string>,
    host: Option<string>,
    user: Option<string>,
    process: Option<string>,
    sha256: Option<string>,
    networkDetails: Option<NetworkDetails>,
    lateralMovementSource: Option<string>,
    lateralMovementTarget: Option<string>,
    initialView: Option<View>)

  /** A full event as an update: the record the dialog's save sends. */
  function PatchOf(e: Event): EventPatch {
    EventPatch(e.id, Some(e.timestamp), Some(e.title), Some(e.description),
               e.tactic, e.technique, e.parentId, Some(e.artifacts), e.order,
               e.searchQuery, e.rawLog, e.attachedFile, e.host, e.user, e.process,
               e.sha256, e.networkDetails, e.lateralMovementSource,
               e.lateralMovementTarget, e.initialView)
  }

  /** An update that names only the event. */
  function EmptyPatch(id: string): EventPatch {
    EventPatch(id, None, None, None, None, None, None, None, None,
               None, None, None, None, None, None, None, None, None, None, None)
  }

  /** Spread semantics for one optional key: a present key overwrites. */
  function Spread<T>(incoming: Option<T>, stored: T): T {
    if incoming.Some? then incoming.value else stored
  }

  /** Spread semantics for a key that is itself optional on the event. */
  function SpreadOpt<T>(incoming: Option<T>, stored: Option<T>): Option<T> {
    if incoming.Some? then incoming else stored
  }

  /** The merge `{...existing, ...incoming, artifacts: a || b || [], host: a || b, ...}`:
      spread keys take any present incoming value, even `""`; the keys
      re-assigned with `||` take the incoming value only when it is truthy.
      An array or object is always truthy, so a present `artifacts` or
      `networkDetails` replaces the stored one. */
  function Merge(stored: Event, p: EventPatch): (r: Event)
    ensures r.id == p.id
    // a stored parent link can be changed but never removed
    ensures stored.parentId.Some? ==> r.parentId.Some?
    // a stored non-empty `||` field can be changed but never cleared
    ensures Truthy(stored.searchQuery) ==> Truthy(r.searchQuery)
    ensures Truthy(stored.rawLog) ==> Truthy(r.rawLog)
    ensures Truthy(stored.attachedFile) ==> Truthy(r.attachedFile)
    ensures Truthy(stored.host) ==> Truthy(r.host)
    ensures Truthy(stored.user) ==> Truthy(r.user)
    ensures Truthy(stored.process) ==> Truthy(r.process)
    ensures Truthy(stored.sha256) ==> Truthy(r.sha256)
    ensures Truthy(stored.lateralMovementSource) ==> Truthy(r.lateralMovementSource)
    ensures Truthy(stored.lateralMovementTarget) ==> Truthy(r.lateralMovementTarget)
    // any present array replaces the stored artifacts, even an empty one
    ensures p.artifacts.Some? ==> r.artifacts == p.artifacts.value
    ensures p.artifacts.None? ==> r.artifacts == stored.artifacts
    // a present spread key overwrites, even with ""; an absent one keeps the stored value
    ensures p.timestamp.Some? ==> r.timestamp == p.timestamp.value
    ensures p.timestamp.None? ==> r.timestamp == stored.timestamp
    ensures p.title.Some? ==> r.title == p.title.value
    ensures p.title.None? ==> r.title == stored.title
    ensures p.description.Some? ==> r.description == p.description.value
    ensures p.description.None? ==> r.description == stored.description
    ensures p.tactic.Some? ==> r.tactic == p.tactic
    ensures p.tactic.None? ==> r.tactic == stored.tactic
    ensures p.technique.Some? ==> r.technique == p.technique
    ensures p.technique.None? ==> r.technique == stored.technique
    ensures p.parentId.Some? ==> r.parentId == p.parentId
    ensures p.parentId.None? ==> r.parentId == stored.parentId
    ensures p.order.Some? ==> r.order == p.order
    ensures p.order.None? ==> r.order == stored.order
    ensures p.networkDetails.Some? ==> r.networkDetails == p.networkDetails
    ensures p.networkDetails.None? ==> r.networkDetails == stored.networkDetails
    ensures p.initialView.Some? ==> r.initialView == p.initialView
    ensures p.initialView.None? ==> r.initialView == stored.initialView
    // a `||` key takes a truthy incoming value, and otherwise keeps exactly the stored one
    ensures Truthy(p.searchQuery) ==> r.searchQuery == p.searchQuery
    ensures !Truthy(p.searchQuery) ==> r.searchQuery == stored.searchQuery
    ensures Truthy(p.rawLog) ==> r.rawLog == p.rawLog
    ensures !Truthy(p.rawLog) ==> r.rawLog == stored.rawLog
    ensures Truthy(p.attachedFile) ==> r.attachedFile == p.attachedFile
    ensures !Truthy(p.attachedFile) ==> r.attachedFile == stored.attachedFile
    ensures Truthy(p.host) ==> r.host == p.host
    ensures !Truthy(p.host) ==> r.host == stored.host
    ensures Truthy(p.user) ==> r.user == p.user
    ensures !Truthy(p.user) ==> r.user == stored.user
    ensures Truthy(p.process) ==> r.process == p.process
    ensures !Truthy(p.process) ==> r.process == stored.process
    ensures Truthy(p.sha256) ==> r.sha256 == p.sha256
    ensures !Truthy(p.sha256) ==> r.sha256 == stored.sha256
    ensures Truthy(p.lateralMovementSource) ==> r.lateralMovementSource == p.lateralMovementSource
    ensures !Truthy(p.lateralMovementSource) ==> r.lateralMovementSource == stored.lateralMovementSource
    ensures Truthy(p.lateralMovementTarget) ==> r.lateralMovementTarget == p.lateralMovementTarget
    ensures !Truthy(p.lateralMovementTarget) ==> r.lateralMovementTarget == stored.lateralMovementTarget
  {
    Event(
      p.id,
      Spread(p.timestamp, stored.timestamp),
      Spread(p.title, stored.title),
      Spread(p.description, stored.description),
      SpreadOpt(p.tactic, stored.tactic),
      SpreadOpt(p.technique, stored.technique),
      SpreadOpt(p.parentId, stored.parentId),
      Spread(p.artifacts, stored.artifacts),
      SpreadOpt(p.order, stored.order),
      Or(p.searchQuery, stored.searchQuery),
      Or(p.rawLog, stored.rawLog),
      Or(p.attachedFile, stored.attachedFile),
      Or(p.host, stored.host),
      Or(p.user, stored.user),
      Or(p.process, stored.process),
      Or(p.sha256, stored.sha256),
      SpreadOpt(p.networkDetails, stored.networkDetails),
      Or(p.lateralMovementSource, stored.lateralMovementSource),
      Or(p.lateralMovementTarget, stored.lateralMovementTarget),
      SpreadOpt(p.initialView, stored.initialView))
  }

  /** `handleUpdateEvent`: every event carrying the incoming id is merged;
      every other event is left as it was. */
  function UpdateEvent(events: seq<Event>, p: EventPatch): (r: seq<Event>)
    ensures |r| == |events|
    ensures forall i :: 0 <= i < |events| && events[i].id != p.id ==> r[i] == events[i]
    ensures forall i :: 0 <= i < |events| && events[i].id == p.id ==> r[i] == Merge(events[i], p)
    ensures !HasId(events, p.id) ==> r == events
  {
    if events == [] then []
    else
      [if events[0].id == p.id then Merge(events[0], p) else events[0]]
        + UpdateEvent(events[1..], p)
  }

  /** Keys the update omits are kept: an update naming only the id is the
      identity. */
  lemma MergeEmptyPatch(stored: Event)
    ensures Merge(stored, EmptyPatch(stored.id)) == stored
  {
  }

  /** Applying the same update twice is applying it once. */
  lemma MergeIdempotent(stored: Event, p: EventPatch)
    ensures Merge(Merge(stored, p), p) == Merge(stored, p)
  {
  }

  /** Whether a save of `e` over `stored` fails to store some key of `e`:
      an absent optional key (dropped by the JSON round trip) or a falsy
      `||` key, whose stored value differs. */
  predicate LosesField(stored: Event, e: Event) {
    || (e.tactic.None? && stored.tactic.Some?)
    || (e.technique.None? && stored.technique.Some?)
    || (e.parentId.None? && stored.parentId.Some?)
    || (e.order.None? && stored.order.Some?)
    || (e.networkDetails.None? && stored.networkDetails.Some?)
    || (e.initialView.None? && stored.initialView.Some?)
    || (!Truthy(e.searchQuery) && e.searchQuery != stored.searchQuery)
    || (!Truthy(e.rawLog) && e.rawLog != stored.rawLog)
    || (!Truthy(e.attachedFile) && e.attachedFile != stored.attachedFile)
    || (!Truthy(e.host) && e.host != stored.host)
    || (!Truthy(e.user) && e.user != stored.user)
    || (!Truthy(e.process) && e.process != stored.process)
    || (!Truthy(e.sha256) && e.sha256 != stored.sha256)
    || (!Truthy(e.lateralMovementSource) && e.lateralMovementSource != stored.lateralMovementSource)
    || (!Truthy(e.lateralMovementTarget) && e.lateralMovementTarget != stored.lateralMovementTarget)
  }

  /** Saving a full event stores it exactly, unless it tries to remove an
      optional key or to set one of the `||` keys to a falsy value
      different from the stored one. */
  lemma MergeFullEvent(stored: Event, e: Event)
    requires stored.id == e.id
    ensures Merge(stored, PatchOf(e)) == e <==> !LosesField(stored, e)
  {
    if LosesField(stored, e) {
      MergeLosesField(stored, e);
    } else {
      MergeKeepsAll(stored, e);
    }
  }

  lemma MergeKeepsAll(stored: Event, e: Event)
    requires stored.id == e.id && !LosesField(stored, e)
    ensures Merge(stored, PatchOf(e)) == e
  {
    var m := Merge(stored, PatchOf(e));
    assert m.tactic == e.tactic && m.technique == e.technique && m.parentId == e.parentId;
    assert m.order == e.order && m.networkDetails == e.networkDetails && m.initialView == e.initialView;
    assert m.searchQuery == e.searchQuery && m.rawLog == e.rawLog && m.attachedFile == e.attachedFile;
    assert m.host == e.host && m.user == e.user && m.process == e.process && m.sha256 == e.sha256;
    assert m.lateralMovementSource == e.lateralMovementSource;
    assert m.lateralMovementTarget == e.lateralMovementTarget;
  }

  lemma MergeLosesField(stored: Event, e: Event)
    requires stored.id == e.id && LosesField(stored, e)
    ensures Merge(stored, PatchOf(e)) != e
  {
    var m := Merge(stored, PatchOf(e));
    if e.tactic.None? && stored.tactic.Some? { assert m.tactic != e.tactic; }
    else if e.technique.None? && stored.technique.Some? { assert m.technique != e.technique; }
    else if e.parentId.None? && stored.parentId.Some? { assert m.parentId != e.parentId; }
    else if e.order.None? && stored.order.Some? { assert m.order != e.order; }
    else if e.networkDetails.None? && stored.networkDetails.Some? { assert m.networkDetails != e.networkDetails; }
    else if e.initialView.None? && stored.initialView.Some? { assert m.initialView != e.initialView; }
    else if !Truthy(e.searchQuery) && e.searchQuery != stored.searchQuery { assert m.searchQuery != e.searchQuery; }
    else if !Truthy(e.rawLog) && e.rawLog != stored.rawLog { assert m.rawLog != e.rawLog; }
    else if !Truthy(e.attachedFile) && e.attachedFile != stored.attachedFile { assert m.attachedFile != e.attachedFile; }
    else if !Truthy(e.host) && e.host != stored.host { assert m.host != e.host; }
    else if !Truthy(e.user) && e.user != stored.user { assert m.user != e.user; }
    else if !Truthy(e.process) && e.process != stored.process { assert m.process != e.process; }
    else if !Truthy(e.sha256) && e.sha256 != stored.sha256 { assert m.sha256 != e.sha256; }
    else if !Truthy(e.lateralMovementSource) && e.lateralMovementSource != stored.lateralMovementSource {
      assert m.lateralMovementSource != e.lateralMovementSource;
    } else {
      assert m.lateralMovementTarget != e.lateralMovementTarget;
    }
  }

  /** A spread key is overwritten even by an empty string. */
  lemma SpreadStoresEmptyString(stored: Event, p: EventPatch)
    requires p.title == Some("") && p.description == Some("")
    ensures Merge(stored, p).title == "" && Merge(stored, p).description == ""
  {
  }

  /** Updating the event just added with the id it returned touches only
      that event. */
  lemma UpdateAfterAdd(events: seq<Event>, parent: Option<string>, freshId: string, nowIso: string, p: EventPatch)
    requires !HasId(events, freshId) && p.id == freshId
    ensures var added := AddEvent(events, parent, freshId, nowIso).0;
      UpdateEvent(added, p) == events + [Merge(added[|events|], p)]
  {
    var added := AddEvent(events, parent, freshId, nowIso).0;
    var r := UpdateEvent(added, p);
    assert forall i :: 0 <= i < |events| ==> added[i] == events[i] && events[i].id != freshId;
    assert r == events + [Merge(added[|events|], p)];
  }
}
