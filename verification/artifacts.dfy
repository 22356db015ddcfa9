/** The artifacts page (src/pages/artifacts.tsx): every artifact of every
    event, grouped by type, one item per distinct value, with the names it
    was observed under and the events it appears in; then the search box
    filter and the choice of tab. */
module ArtifactsPage {
  import opened Wrappers
  import opened Js
  import opened Seqs
  import opened Events

  /** What an item remembers of an event. */
  datatype EventRef = EventRef(id: string, title: string, timestamp: string)

  datatype Item = Item(
    value: string,
    linkedValue: Option<string>,
    names: seq<string>,
    events: seq<EventRef>)

  datatype Group = Group(kind: ArtifactType, items: seq<Item>)

  /** One artifact as met while walking the events. */
  datatype Sighting = Sighting(ref: EventRef, art: Artifact)

  function RefOf(e: Event): EventRef {
    EventRef(e.id, e.title, e.timestamp)
  }

  /** The artifacts of one event, in order. */
  function SightingsOf(e: Event): (r: seq<Sighting>)
    ensures |r| == |e.artifacts|
    ensures forall j :: 0 <= j < |r| ==> r[j] == Sighting(RefOf(e), e.artifacts[j])
  {
    seq(|e.artifacts|, j requires 0 <= j < |e.artifacts| => Sighting(RefOf(e), e.artifacts[j]))
  }

  /** The order in which the nested `forEach` visits artifacts. */
  function Sightings(events: seq<Event>): (r: seq<Sighting>)
  {
    if events == [] then [] else Sightings(events[..|events| - 1]) + SightingsOf(events[|events| - 1])
  }

  /** Every sighting is an artifact of one of the events, and every
      artifact of every event is sighted. */
  lemma {:induction false} SightingsMember(events: seq<Event>, o: Sighting)
    ensures o in Sightings(events) <==>
      exists i, j :: 0 <= i < |events| && 0 <= j < |events[i].artifacts| && o == Sighting(RefOf(events[i]), events[i].artifacts[j])
  {
    if events != [] {
      var p := events[..|events| - 1];
      var e := events[|events| - 1];
      SightingsMember(p, o);
      if o in SightingsOf(e) {
        var j :| 0 <= j < |SightingsOf(e)| && SightingsOf(e)[j] == o;
        assert o == Sighting(RefOf(events[|events| - 1]), events[|events| - 1].artifacts[j]);
      }
      if exists i, j :: 0 <= i < |events| && 0 <= j < |events[i].artifacts| && o == Sighting(RefOf(events[i]), events[i].artifacts[j]) {
        var i, j :| 0 <= i < |events| && 0 <= j < |events[i].artifacts| && o == Sighting(RefOf(events[i]), events[i].artifacts[j]);
        if i < |p| {
          assert p[i] == events[i];
        } else {
          assert SightingsOf(e)[j] == o;
        }
      }
    }
  }

  // ---------------------------------------------------------------------
  // The fold as written.

  /** The item pushed for a value not seen before in its group. */
  function NewItem(o: Sighting): Item {
    Item(o.art.value, o.art.linkedValue, [o.art.name], [o.ref])
  }

  /** `events.some(e => e.id === id)`. */
  predicate HasRef(refs: seq<EventRef>, id: string) {
    exists i :: 0 <= i < |refs| && refs[i].id == id
  }

  /** A repeated value: add the name and the event unless already there.
      The first linked value stays. */
  function Touch(item: Item, o: Sighting): Item {
    var names := if o.art.name in item.names then item.names else item.names + [o.art.name];
    var events := if HasRef(item.events, o.ref.id) then item.events else item.events + [o.ref];
    item.(names := names, events := events)
  }

  /** `items.find(item => item.value === value)`, as a position. */
  function FindItem(items: seq<Item>, value: string): (r: Option<nat>)
    ensures r.Some? ==> r.value < |items| && items[r.value].value == value
    ensures r.Some? ==> forall j :: 0 <= j < r.value ==> items[j].value != value
    ensures r.None? ==> forall j :: 0 <= j < |items| ==> items[j].value != value
  {
    if items == [] then None
    else if items[0].value == value then Some(0)
    else match FindItem(items[1..], value)
      case None => None
      case Some(j) => Some(j + 1)
  }

  function InsertItem(items: seq<Item>, o: Sighting): (r: seq<Item>)
  {
    match FindItem(items, o.art.value)
    case None => items + [NewItem(o)]
    case Some(j) => items[j := Touch(items[j], o)]
  }

  /** `groups[artifact.type]`, as a position in insertion order. */
  function FindGroup(groups: seq<Group>, kind: ArtifactType): (r: Option<nat>)
    ensures r.Some? ==> r.value < |groups| && groups[r.value].kind == kind
    ensures r.None? ==> forall i :: 0 <= i < |groups| ==> groups[i].kind != kind
  {
    if groups == [] then None
    else if groups[0].kind == kind then Some(0)
    else match FindGroup(groups[1..], kind)
      case None => None
      case Some(i) => Some(i + 1)
  }

  /** One step of the inner `forEach`: create the group if needed (it
      keeps its place in insertion order, as `Object.values` does for
      string keys), then add to it. */
  function Insert(groups: seq<Group>, o: Sighting): (r: seq<Group>)
  {
    match FindGroup(groups, o.art.kind)
    case None => groups + [Group(o.art.kind, InsertItem([], o))]
    case Some(i) => groups[i := groups[i].(items := InsertItem(groups[i].items, o))]
  }

  /** The fold over the sightings, left to right. */
  function Collect(os: seq<Sighting>): seq<Group> {
    if os == [] then [] else Insert(Collect(os[..|os| - 1]), os[|os| - 1])
  }

  /** `artifactGroups` before the search filter. */
  function Aggregate(events: seq<Event>): seq<Group> {
    Collect(Sightings(events))
  }

  // ---------------------------------------------------------------------
  // The same groups, defined directly.

  function Kinds(os: seq<Sighting>): (r: seq<ArtifactType>)
    ensures |r| == |os| && forall i :: 0 <= i < |os| ==> r[i] == os[i].art.kind
  {
    seq(|os|, i requires 0 <= i < |os| => os[i].art.kind)
  }

  function Values(os: seq<Sighting>): (r: seq<string>)
    ensures |r| == |os| && forall i :: 0 <= i < |os| ==> r[i] == os[i].art.value
  {
    seq(|os|, i requires 0 <= i < |os| => os[i].art.value)
  }

  function Names(os: seq<Sighting>): (r: seq<string>)
    ensures |r| == |os| && forall i :: 0 <= i < |os| ==> r[i] == os[i].art.name
  {
    seq(|os|, i requires 0 <= i < |os| => os[i].art.name)
  }

  function Refs(os: seq<Sighting>): (r: seq<EventRef>)
    ensures |r| == |os| && forall i :: 0 <= i < |os| ==> r[i] == os[i].ref
  {
    seq(|os|, i requires 0 <= i < |os| => os[i].ref)
  }

  /** The sightings of one type, in order. */
  function OfKind(os: seq<Sighting>, kind: ArtifactType): seq<Sighting>
  {
    if os == [] then []
    else OfKind(os[..|os| - 1], kind) + (if os[|os| - 1].art.kind == kind then [os[|os| - 1]] else [])
  }

  /** The sightings of one value, in order. */
  function WithValue(os: seq<Sighting>, value: string): seq<Sighting>
  {
    if os == [] then []
    else WithValue(os[..|os| - 1], value) + (if os[|os| - 1].art.value == value then [os[|os| - 1]] else [])
  }

  lemma {:induction false} OfKindMember(os: seq<Sighting>, kind: ArtifactType, o: Sighting)
    ensures o in OfKind(os, kind) <==> o in os && o.art.kind == kind
  {
    if os != [] {
      var p := os[..|os| - 1];
      OfKindMember(p, kind, o);
      assert os == p + [os[|os| - 1]];
    }
  }

  lemma {:induction false} WithValueMember(os: seq<Sighting>, value: string, o: Sighting)
    ensures o in WithValue(os, value) <==> o in os && o.art.value == value
  {
    if os != [] {
      var p := os[..|os| - 1];
      WithValueMember(p, value, o);
      assert os == p + [os[|os| - 1]];
    }
  }

  /** Event references, each id once, the first reference of an id kept. */
  function DedupRefs(refs: seq<EventRef>): (r: seq<EventRef>)
    ensures forall i :: 0 <= i < |refs| ==> HasRef(r, refs[i].id)
    ensures forall i :: 0 <= i < |r| ==> r[i] in refs
    ensures forall i, j :: 0 <= i < j < |r| ==> r[i].id != r[j].id
  {
    if refs == [] then []
    else
      var p := refs[..|refs| - 1];
      var d := DedupRefs(p);
      var x := refs[|refs| - 1];
      assert refs == p + [x];
      if HasRef(d, x.id) then d
      else
        HasRefGrows(p, d, x);
        assert (d + [x])[|d|] == x;
        d + [x]
  }

  /** Appending a reference loses no id. */
  lemma HasRefGrows(refs: seq<EventRef>, d: seq<EventRef>, x: EventRef)
    requires forall i :: 0 <= i < |refs| ==> HasRef(d, refs[i].id)
    ensures forall i :: 0 <= i < |refs| ==> HasRef(d + [x], refs[i].id)
  {
    forall i | 0 <= i < |refs| ensures HasRef(d + [x], refs[i].id) {
      assert HasRef(d, refs[i].id);
      var k :| 0 <= k < |d| && d[k].id == refs[i].id;
      assert (d + [x])[k] == d[k];
    }
  }

  /** Position of the first reference to `id`. */
  function FirstRef(refs: seq<EventRef>, id: string): (k: nat)
    requires HasRef(refs, id)
    ensures k < |refs| && refs[k].id == id
    ensures forall j :: 0 <= j < k ==> refs[j].id != id
  {
    if refs[0].id == id then 0
    else
      assert HasRef(refs[1..], id) by {
        var i :| 0 <= i < |refs| && refs[i].id == id;
        assert refs[1..][i - 1].id == id;
      }
      1 + FirstRef(refs[1..], id)
  }

  lemma FirstRefPrefix(p: seq<EventRef>, x: EventRef, id: string)
    requires HasRef(p, id)
    ensures HasRef(p + [x], id) && FirstRef(p + [x], id) == FirstRef(p, id)
  {
    var k := FirstRef(p, id);
    assert (p + [x])[k] == p[k];
  }

  lemma FirstRefNew(p: seq<EventRef>, x: EventRef)
    requires forall j :: 0 <= j < |p| ==> p[j].id != x.id
    ensures HasRef(p + [x], x.id) && FirstRef(p + [x], x.id) == |p|
  {
    assert (p + [x])[|p|] == x;
  }

  /** The reference kept for an id is the first reference to it. */
  lemma {:induction false} DedupRefsFirst(refs: seq<EventRef>, i: nat)
    requires i < |DedupRefs(refs)|
    ensures HasRef(refs, DedupRefs(refs)[i].id)
    ensures DedupRefs(refs)[i] == refs[FirstRef(refs, DedupRefs(refs)[i].id)]
  {
    var p := refs[..|refs| - 1];
    var x := refs[|refs| - 1];
    var d := DedupRefs(p);
    assert refs == p + [x];
    if HasRef(d, x.id) || i < |d| {
      assert DedupRefs(refs)[i] == d[i];
      DedupRefsFirst(p, i);
      FirstRefPrefix(p, x, d[i].id);
      var k := FirstRef(p, d[i].id);
      assert refs[k] == p[k];
    } else {
      assert DedupRefs(refs)[i] == x;
      DedupRefsNew(p, x);
      FirstRefNew(p, x);
    }
  }

  /** A reference whose id the deduplicated list lacks is new to the list. */
  lemma DedupRefsNew(p: seq<EventRef>, x: EventRef)
    requires !HasRef(DedupRefs(p), x.id)
    ensures forall j :: 0 <= j < |p| ==> p[j].id != x.id
  {
  }

  /** The kept references are in the order of their ids' first references. */
  lemma {:induction false} DedupRefsOrder(refs: seq<EventRef>, a: nat, b: nat)
    requires a < b < |DedupRefs(refs)|
    ensures HasRef(refs, DedupRefs(refs)[a].id) && HasRef(refs, DedupRefs(refs)[b].id)
    ensures FirstRef(refs, DedupRefs(refs)[a].id) < FirstRef(refs, DedupRefs(refs)[b].id)
  {
    var p := refs[..|refs| - 1];
    var x := refs[|refs| - 1];
    var d := DedupRefs(p);
    assert refs == p + [x];
    DedupRefsFirst(refs, a);
    DedupRefsFirst(refs, b);
    assert DedupRefs(refs)[a] == d[a];
    DedupRefsFirst(p, a);
    FirstRefPrefix(p, x, d[a].id);
    if HasRef(d, x.id) || b < |d| {
      assert DedupRefs(refs)[b] == d[b];
      DedupRefsOrder(p, a, b);
      FirstRefPrefix(p, x, d[b].id);
    } else {
      assert DedupRefs(refs)[b] == x;
      DedupRefsNew(p, x);
      FirstRefNew(p, x);
    }
  }

  /** The item for a value, from all its sightings in one group. */
  function ItemOf(w: seq<Sighting>, value: string): Item {
    if w == [] then Item(value, None, [], [])
    else Item(value, w[0].art.linkedValue, Dedup(Names(w)), DedupRefs(Refs(w)))
  }

  /** The items of one group: one per distinct value, in first-seen order. */
  function ItemsRef(os: seq<Sighting>): (r: seq<Item>)
    ensures |r| == |Dedup(Values(os))|
    ensures forall j :: 0 <= j < |r| ==> r[j] == ItemOf(WithValue(os, Dedup(Values(os))[j]), Dedup(Values(os))[j])
  {
    var vs := Dedup(Values(os));
    seq(|vs|, j requires 0 <= j < |vs| => ItemOf(WithValue(os, vs[j]), vs[j]))
  }

  /** The groups: one per distinct type, in first-seen order. */
  function GroupsRef(os: seq<Sighting>): (r: seq<Group>)
    ensures |r| == |Dedup(Kinds(os))|
    ensures forall i :: 0 <= i < |r| ==> r[i] == Group(Dedup(Kinds(os))[i], ItemsRef(OfKind(os, Dedup(Kinds(os))[i])))
  {
    var ks := Dedup(Kinds(os));
    seq(|ks|, i requires 0 <= i < |ks| => Group(ks[i], ItemsRef(OfKind(os, ks[i]))))
  }

  // ---------------------------------------------------------------------
  // The fold computes the reference.

  lemma InDedup<T>(s: seq<T>, x: T)
    ensures x in Dedup(s) <==> x in s
  {
    if x in s {
      var i :| 0 <= i < |s| && s[i] == x;
    }
    if x in Dedup(s) {
      var i :| 0 <= i < |Dedup(s)| && Dedup(s)[i] == x;
    }
  }

  lemma KindsSnoc(os: seq<Sighting>, o: Sighting)
    ensures Kinds(os + [o]) == Kinds(os) + [o.art.kind]
  {
  }

  lemma ValuesSnoc(os: seq<Sighting>, o: Sighting)
    ensures Values(os + [o]) == Values(os) + [o.art.value]
  {
  }

  lemma NamesSnoc(os: seq<Sighting>, o: Sighting)
    ensures Names(os + [o]) == Names(os) + [o.art.name]
  {
  }

  lemma RefsSnoc(os: seq<Sighting>, o: Sighting)
    ensures Refs(os + [o]) == Refs(os) + [o.ref]
  {
  }

  lemma OfKindSnoc(os: seq<Sighting>, o: Sighting, kind: ArtifactType)
    ensures OfKind(os + [o], kind) == OfKind(os, kind) + (if o.art.kind == kind then [o] else [])
  {
    assert (os + [o])[..|os|] == os;
  }

  lemma WithValueSnoc(os: seq<Sighting>, o: Sighting, value: string)
    ensures WithValue(os + [o], value) == WithValue(os, value) + (if o.art.value == value then [o] else [])
  {
    assert (os + [o])[..|os|] == os;
  }

  lemma DedupRefsSnoc(refs: seq<EventRef>, x: EventRef)
    ensures DedupRefs(refs + [x]) == if HasRef(DedupRefs(refs), x.id) then DedupRefs(refs) else DedupRefs(refs) + [x]
  {
    assert (refs + [x])[..|refs|] == refs;
  }

  /** The names of an item grow as `Touch` grows them. */
  lemma TouchNames(w: seq<Sighting>, o: Sighting)
    ensures Dedup(Names(w + [o])) ==
      if o.art.name in Dedup(Names(w)) then Dedup(Names(w)) else Dedup(Names(w)) + [o.art.name]
  {
    NamesSnoc(w, o);
    DedupSnoc(Names(w), o.art.name);
    InDedup(Names(w), o.art.name);
  }

  /** A further sighting of a known value updates its item as `Touch` does. */
  lemma TouchStep(w: seq<Sighting>, o: Sighting)
    requires w != []
    ensures Touch(ItemOf(w, o.art.value), o) == ItemOf(w + [o], o.art.value)
  {
    TouchNames(w, o);
    RefsSnoc(w, o);
    DedupRefsSnoc(Refs(w), o.ref);
    assert (w + [o])[0] == w[0];
  }

  /** The first sighting of a value gives `NewItem`. */
  lemma NewItemStep(o: Sighting)
    ensures ItemOf([o], o.art.value) == NewItem(o)
  {
    NamesSnoc([], o);
    RefsSnoc([], o);
    DedupSnoc([], o.art.name);
    DedupRefsSnoc([], o.ref);
    assert [] + [o.art.name] == [o.art.name];
    assert [] + [o.ref] == [o.ref];
    assert [] + [o] == [o];
  }

  lemma WithValueValues(os: seq<Sighting>, value: string)
    ensures value in Values(os) <==> WithValue(os, value) != []
  {
    var w := WithValue(os, value);
    if value in Values(os) {
      var i :| 0 <= i < |os| && Values(os)[i] == value;
      WithValueMember(os, value, os[i]);
    }
    if w != [] {
      WithValueMember(os, value, w[0]);
      var i :| 0 <= i < |os| && os[i] == w[0];
      assert Values(os)[i] == value;
    }
  }

  lemma ItemsStep(os: seq<Sighting>, o: Sighting)
    ensures InsertItem(ItemsRef(os), o) == ItemsRef(os + [o])
  {
    var v := o.art.value;
    var vs := Dedup(Values(os));
    var items := ItemsRef(os);
    InDedup(Values(os), v);
    match FindItem(items, v)
    case None =>
      assert v !in vs by {
        forall j | 0 <= j < |vs| ensures vs[j] != v {
          assert items[j].value == vs[j];
        }
      }
      ItemsStepNew(os, o);
    case Some(j) =>
      assert items[j].value == vs[j];
      ItemsStepOld(os, o, j);
      ItemsOldTouched(os, o, j);
  }

  /** An item whose value is not the new sighting's keeps its place and contents. */
  lemma ItemKept(os: seq<Sighting>, o: Sighting, m: nat)
    requires m < |Dedup(Values(os))| && m < |Dedup(Values(os + [o]))|
    requires Dedup(Values(os + [o]))[m] == Dedup(Values(os))[m] != o.art.value
    ensures ItemsRef(os + [o])[m] == ItemsRef(os)[m]
  {
    var v := Dedup(Values(os))[m];
    WithValueSnoc(os, o, v);
    assert WithValue(os + [o], v) == WithValue(os, v);
    assert ItemsRef(os + [o])[m] == ItemOf(WithValue(os + [o], v), v);
  }

  lemma ItemsStepNew(os: seq<Sighting>, o: Sighting)
    requires o.art.value !in Values(os)
    ensures ItemsRef(os + [o]) == ItemsRef(os) + [NewItem(o)]
  {
    ItemsNewLast(os, o);
    var a, b := ItemsRef(os), ItemsRef(os + [o]);
    forall m | 0 <= m < |a| ensures b[m] == a[m] {
      ItemsNewKept(os, o, m);
    }
    SnocExt(a, b, NewItem(o));
  }

  lemma ItemsNewValues(os: seq<Sighting>, o: Sighting)
    requires o.art.value !in Values(os)
    ensures Dedup(Values(os + [o])) == Dedup(Values(os)) + [o.art.value]
  {
    ValuesSnoc(os, o);
    DedupSnoc(Values(os), o.art.value);
  }

  lemma WithValueFresh(os: seq<Sighting>, o: Sighting)
    requires o.art.value !in Values(os)
    ensures WithValue(os + [o], o.art.value) == [o]
  {
    WithValueSnoc(os, o, o.art.value);
    WithValueValues(os, o.art.value);
    assert [] + [o] == [o];
  }

  lemma ItemsNewLast(os: seq<Sighting>, o: Sighting)
    requires o.art.value !in Values(os)
    ensures Dedup(Values(os + [o])) == Dedup(Values(os)) + [o.art.value]
    ensures ItemsRef(os + [o])[|ItemsRef(os)|] == NewItem(o)
  {
    ItemsNewValues(os, o);
    WithValueFresh(os, o);
    NewItemStep(o);
  }

  lemma ItemsNewKept(os: seq<Sighting>, o: Sighting, m: nat)
    requires o.art.value !in Values(os)
    requires Dedup(Values(os + [o])) == Dedup(Values(os)) + [o.art.value]
    requires m < |Dedup(Values(os))|
    ensures ItemsRef(os + [o])[m] == ItemsRef(os)[m]
  {
    assert Dedup(Values(os))[m] in Values(os);
    ItemKept(os, o, m);
  }

  lemma SnocExt<T>(a: seq<T>, b: seq<T>, x: T)
    requires |b| == |a| + 1 && b[|a|] == x
    requires forall j :: 0 <= j < |a| ==> b[j] == a[j]
    ensures b == a + [x]
  {
  }

  lemma UpdateExt<T>(a: seq<T>, b: seq<T>, j: nat, x: T)
    requires |b| == |a| && j < |a| && b[j] == x
    requires forall k :: 0 <= k < |a| && k != j ==> b[k] == a[k]
    ensures b == a[j := x]
  {
  }

  lemma ItemsStepOld(os: seq<Sighting>, o: Sighting, j: nat)
    requires j < |Dedup(Values(os))| && Dedup(Values(os))[j] == o.art.value
    ensures j < |ItemsRef(os + [o])|
    ensures ItemsRef(os + [o]) == ItemsRef(os)[j := ItemsRef(os + [o])[j]]
  {
    ItemsOldValues(os, o, j);
    var a, b := ItemsRef(os), ItemsRef(os + [o]);
    forall m | 0 <= m < |a| && m != j ensures b[m] == a[m] {
      ItemsOldKept(os, o, j, m);
    }
    UpdateExt(a, b, j, b[j]);
  }

  lemma ItemsOldKept(os: seq<Sighting>, o: Sighting, j: nat, m: nat)
    requires j < |Dedup(Values(os))| && Dedup(Values(os))[j] == o.art.value
    requires Dedup(Values(os + [o])) == Dedup(Values(os))
    requires m < |Dedup(Values(os))| && m != j
    ensures ItemsRef(os + [o])[m] == ItemsRef(os)[m]
  {
    assert NoDup(Dedup(Values(os)));
    ItemKept(os, o, m);
  }

  lemma ItemsOldValues(os: seq<Sighting>, o: Sighting, j: nat)
    requires j < |Dedup(Values(os))| && Dedup(Values(os))[j] == o.art.value
    ensures Dedup(Values(os + [o])) == Dedup(Values(os))
  {
    ValuesSnoc(os, o);
    DedupSnoc(Values(os), o.art.value);
    assert o.art.value in Values(os);
  }

  lemma ItemsOldTouched(os: seq<Sighting>, o: Sighting, j: nat)
    requires j < |Dedup(Values(os))| && Dedup(Values(os))[j] == o.art.value
    ensures Dedup(Values(os + [o])) == Dedup(Values(os))
    ensures ItemsRef(os + [o])[j] == Touch(ItemsRef(os)[j], o)
  {
    var v := o.art.value;
    ItemsOldValues(os, o, j);
    WithValueSnoc(os, o, v);
    WithValueValues(os, v);
    TouchStep(WithValue(os, v), o);
  }

  lemma OfKindKinds(os: seq<Sighting>, kind: ArtifactType)
    ensures OfKind(os, kind) != [] ==> kind in Kinds(os)
  {
    if OfKind(os, kind) != [] {
      var o := OfKind(os, kind)[0];
      OfKindMember(os, kind, o);
      var i :| 0 <= i < |os| && os[i] == o;
      assert Kinds(os)[i] == kind;
    }
  }

  /** One step of the outer fold. */
  lemma GroupsStep(os: seq<Sighting>, o: Sighting)
    ensures Insert(GroupsRef(os), o) == GroupsRef(os + [o])
  {
    var k := o.art.kind;
    var ks := Dedup(Kinds(os));
    var groups := GroupsRef(os);
    InDedup(Kinds(os), k);
    match FindGroup(groups, k)
    case None =>
      assert k !in ks by {
        forall i | 0 <= i < |ks| ensures ks[i] != k {
          assert groups[i].kind == ks[i];
        }
      }
      GroupsStepNew(os, o);
    case Some(i) =>
      assert groups[i].kind == ks[i];
      GroupsStepOld(os, o, i);
  }

  /** A group of another type keeps its place and contents. */
  lemma GroupKept(os: seq<Sighting>, o: Sighting, n: nat)
    requires n < |Dedup(Kinds(os))| && n < |Dedup(Kinds(os + [o]))|
    requires Dedup(Kinds(os + [o]))[n] == Dedup(Kinds(os))[n] != o.art.kind
    ensures GroupsRef(os + [o])[n] == GroupsRef(os)[n]
  {
    var k := Dedup(Kinds(os))[n];
    OfKindSnoc(os, o, k);
    assert OfKind(os + [o], k) == OfKind(os, k);
    assert GroupsRef(os + [o])[n] == Group(k, ItemsRef(OfKind(os + [o], k)));
  }

  lemma GroupsStepNew(os: seq<Sighting>, o: Sighting)
    requires o.art.kind !in Kinds(os)
    ensures GroupsRef(os + [o]) == GroupsRef(os) + [Group(o.art.kind, InsertItem([], o))]
  {
    GroupsNewLast(os, o);
    var a, b := GroupsRef(os), GroupsRef(os + [o]);
    forall n | 0 <= n < |a| ensures b[n] == a[n] {
      GroupsNewKept(os, o, n);
    }
    SnocExt(a, b, Group(o.art.kind, InsertItem([], o)));
  }

  lemma GroupsNewKinds(os: seq<Sighting>, o: Sighting)
    requires o.art.kind !in Kinds(os)
    ensures Dedup(Kinds(os + [o])) == Dedup(Kinds(os)) + [o.art.kind]
  {
    KindsSnoc(os, o);
    DedupSnoc(Kinds(os), o.art.kind);
  }

  lemma OfKindFresh(os: seq<Sighting>, o: Sighting)
    requires o.art.kind !in Kinds(os)
    ensures OfKind(os + [o], o.art.kind) == [o]
  {
    OfKindSnoc(os, o, o.art.kind);
    OfKindKinds(os, o.art.kind);
    assert [] + [o] == [o];
  }

  /** The items of a group made by its first sighting. */
  lemma ItemsSingle(o: Sighting)
    ensures ItemsRef([o]) == InsertItem([], o)
  {
    assert ItemsRef([]) == [];
    ItemsStep([], o);
    assert [] + [o] == [o];
  }

  lemma GroupsNewLast(os: seq<Sighting>, o: Sighting)
    requires o.art.kind !in Kinds(os)
    ensures Dedup(Kinds(os + [o])) == Dedup(Kinds(os)) + [o.art.kind]
    ensures GroupsRef(os + [o])[|GroupsRef(os)|] == Group(o.art.kind, InsertItem([], o))
  {
    GroupsNewKinds(os, o);
    OfKindFresh(os, o);
    ItemsSingle(o);
  }

  lemma GroupsNewKept(os: seq<Sighting>, o: Sighting, n: nat)
    requires o.art.kind !in Kinds(os)
    requires Dedup(Kinds(os + [o])) == Dedup(Kinds(os)) + [o.art.kind]
    requires n < |Dedup(Kinds(os))|
    ensures GroupsRef(os + [o])[n] == GroupsRef(os)[n]
  {
    assert Dedup(Kinds(os))[n] in Kinds(os);
    GroupKept(os, o, n);
  }

  /** One step of the inner fold on the items of a group. */
  lemma GroupsStepOld(os: seq<Sighting>, o: Sighting, i: nat)
    requires i < |Dedup(Kinds(os))| && Dedup(Kinds(os))[i] == o.art.kind
    ensures GroupsRef(os + [o]) == GroupsRef(os)[i := GroupsRef(os)[i].(items := InsertItem(GroupsRef(os)[i].items, o))]
  {
    GroupsOldTouched(os, o, i);
    var a, b := GroupsRef(os), GroupsRef(os + [o]);
    forall n | 0 <= n < |a| && n != i ensures b[n] == a[n] {
      GroupsOldKept(os, o, i, n);
    }
    UpdateExt(a, b, i, a[i].(items := InsertItem(a[i].items, o)));
  }

  lemma GroupsOldKinds(os: seq<Sighting>, o: Sighting, i: nat)
    requires i < |Dedup(Kinds(os))| && Dedup(Kinds(os))[i] == o.art.kind
    ensures Dedup(Kinds(os + [o])) == Dedup(Kinds(os))
  {
    KindsSnoc(os, o);
    DedupSnoc(Kinds(os), o.art.kind);
    assert o.art.kind in Kinds(os);
  }

  lemma GroupsOldTouched(os: seq<Sighting>, o: Sighting, i: nat)
    requires i < |Dedup(Kinds(os))| && Dedup(Kinds(os))[i] == o.art.kind
    ensures Dedup(Kinds(os + [o])) == Dedup(Kinds(os))
    ensures GroupsRef(os + [o])[i] == GroupsRef(os)[i].(items := InsertItem(GroupsRef(os)[i].items, o))
  {
    var k := o.art.kind;
    GroupsOldKinds(os, o, i);
    OfKindSnoc(os, o, k);
    ItemsStep(OfKind(os, k), o);
  }

  lemma GroupsOldKept(os: seq<Sighting>, o: Sighting, i: nat, n: nat)
    requires i < |Dedup(Kinds(os))| && Dedup(Kinds(os))[i] == o.art.kind
    requires Dedup(Kinds(os + [o])) == Dedup(Kinds(os))
    requires n < |Dedup(Kinds(os))| && n != i
    ensures GroupsRef(os + [o])[n] == GroupsRef(os)[n]
  {
    assert NoDup(Dedup(Kinds(os)));
    GroupKept(os, o, n);
  }

  /** The fold over the sightings is the reference grouping. */
  lemma {:induction false} CollectIsReference(os: seq<Sighting>)
    ensures Collect(os) == GroupsRef(os)
  {
    if os == [] {
      assert GroupsRef(os) == [];
    } else {
      var p := os[..|os| - 1];
      var x := os[|os| - 1];
      assert os == p + [x];
      calc {
        Collect(os);
        Insert(Collect(p), x);
        { CollectIsReference(p); }
        Insert(GroupsRef(p), x);
        { GroupsStep(p, x); }
        GroupsRef(os);
      }
    }
  }

  /** `artifactGroups` before the search, described directly: one group per
      artifact type in first-seen order, holding one item per distinct value
      in first-seen order; an item keeps the linked value of the value's
      first sighting, every name it was seen under once in first-seen order,
      and every event it appears in once. */
  lemma AggregateIsReference(events: seq<Event>)
    ensures Aggregate(events) == GroupsRef(Sightings(events))
  {
    CollectIsReference(Sightings(events));
  }

  /** No two groups share a type, no group is empty, and no two items of a
      group share a value. */
  lemma AggregateShape(events: seq<Event>)
    ensures forall i, j :: 0 <= i < j < |Aggregate(events)| ==> Aggregate(events)[i].kind != Aggregate(events)[j].kind
    ensures forall i :: 0 <= i < |Aggregate(events)| ==> Aggregate(events)[i].items != []
    ensures forall i, j, k :: 0 <= i < |Aggregate(events)| && 0 <= j < k < |Aggregate(events)[i].items| ==>
      Aggregate(events)[i].items[j].value != Aggregate(events)[i].items[k].value
  {
    var os := Sightings(events);
    AggregateIsReference(events);
    var ks := Dedup(Kinds(os));
    forall i | 0 <= i < |ks| ensures ItemsRef(OfKind(os, ks[i])) != [] {
      var sub := OfKind(os, ks[i]);
      var n :| 0 <= n < |os| && Kinds(os)[n] == ks[i];
      OfKindMember(os, ks[i], os[n]);
      assert Values(sub)[0] in Dedup(Values(sub));
    }
  }

  /** The artifact `(kind, value)` was seen on some event under `name`. */
  predicate SeenAs(events: seq<Event>, kind: ArtifactType, value: string, name: string) {
    exists o :: o in Sightings(events) && o.art.kind == kind && o.art.value == value && o.art.name == name
  }

  /** The artifact `(kind, value)` was seen on an event with this id. */
  predicate SeenIn(events: seq<Event>, kind: ArtifactType, value: string, id: string) {
    exists o :: o in Sightings(events) && o.art.kind == kind && o.art.value == value && o.ref.id == id
  }

  /** Each item has at least one name and one event; its names are the
      names its value was seen under within the type, each once; its
      events are the events it was seen in, each id once. */
  lemma AggregateItem(events: seq<Event>, i: nat, j: nat)
    requires i < |Aggregate(events)| && j < |Aggregate(events)[i].items|
    ensures Aggregate(events)[i].items[j].names != []
    ensures Aggregate(events)[i].items[j].events != []
    ensures NoDup(Aggregate(events)[i].items[j].names)
    ensures forall a, b :: 0 <= a < b < |Aggregate(events)[i].items[j].events| ==>
      Aggregate(events)[i].items[j].events[a].id != Aggregate(events)[i].items[j].events[b].id
    ensures forall n :: n in Aggregate(events)[i].items[j].names <==>
      SeenAs(events, Aggregate(events)[i].kind, Aggregate(events)[i].items[j].value, n)
    ensures forall id :: HasRef(Aggregate(events)[i].items[j].events, id) <==>
      SeenIn(events, Aggregate(events)[i].kind, Aggregate(events)[i].items[j].value, id)
  {
    var os := Sightings(events);
    AggregateIsReference(events);
    var ks := Dedup(Kinds(os));
    var sub := OfKind(os, ks[i]);
    var vs := Dedup(Values(sub));
    InDedup(Values(sub), vs[j]);
    ItemNames(events, ks[i], vs[j]);
    ItemEvents(events, ks[i], vs[j]);
  }

  /** The sightings behind one item. */
  lemma ItemSightings(os: seq<Sighting>, kind: ArtifactType, v: string, o: Sighting)
    ensures o in WithValue(OfKind(os, kind), v) <==> o in os && o.art.kind == kind && o.art.value == v
  {
    WithValueMember(OfKind(os, kind), v, o);
    OfKindMember(os, kind, o);
  }

  lemma ItemNames(events: seq<Event>, kind: ArtifactType, v: string)
    requires v in Values(OfKind(Sightings(events), kind))
    ensures var item := ItemOf(WithValue(OfKind(Sightings(events), kind), v), v);
      && item.value == v && item.names != [] && NoDup(item.names)
      && forall n :: n in item.names <==> SeenAs(events, kind, v, n)
  {
    var os := Sightings(events);
    var w := WithValue(OfKind(os, kind), v);
    WithValueValues(OfKind(os, kind), v);
    var names := Dedup(Names(w));
    forall n ensures n in names <==> SeenAs(events, kind, v, n) {
      InDedup(Names(w), n);
      if n in Names(w) {
        var k :| 0 <= k < |w| && Names(w)[k] == n;
        ItemSightings(os, kind, v, w[k]);
      }
      if SeenAs(events, kind, v, n) {
        var o :| o in os && o.art.kind == kind && o.art.value == v && o.art.name == n;
        ItemSightings(os, kind, v, o);
        var k :| 0 <= k < |w| && w[k] == o;
        assert Names(w)[k] == n;
      }
    }
    assert Names(w)[0] in names;
  }

  /** An event of an item saw its value. */
  lemma ItemEventSound(events: seq<Event>, kind: ArtifactType, v: string, id: string)
    requires HasRef(DedupRefs(Refs(WithValue(OfKind(Sightings(events), kind), v))), id)
    ensures SeenIn(events, kind, v, id)
  {
    var os := Sightings(events);
    var w := WithValue(OfKind(os, kind), v);
    var refs := DedupRefs(Refs(w));
    var k :| 0 <= k < |refs| && refs[k].id == id;
    assert refs[k] in Refs(w);
    var m :| 0 <= m < |Refs(w)| && Refs(w)[m] == refs[k];
    ItemSightings(os, kind, v, w[m]);
  }

  /** Every event that saw the value is an event of its item. */
  lemma ItemEventComplete(events: seq<Event>, kind: ArtifactType, v: string, id: string)
    requires SeenIn(events, kind, v, id)
    ensures HasRef(DedupRefs(Refs(WithValue(OfKind(Sightings(events), kind), v))), id)
  {
    var os := Sightings(events);
    var w := WithValue(OfKind(os, kind), v);
    var o :| o in os && o.art.kind == kind && o.art.value == v && o.ref.id == id;
    ItemSightings(os, kind, v, o);
    var k :| 0 <= k < |w| && w[k] == o;
    assert Refs(w)[k].id == id;
  }

  lemma ItemEvents(events: seq<Event>, kind: ArtifactType, v: string)
    requires v in Values(OfKind(Sightings(events), kind))
    ensures var item := ItemOf(WithValue(OfKind(Sightings(events), kind), v), v);
      && item.events != []
      && (forall a, b :: 0 <= a < b < |item.events| ==> item.events[a].id != item.events[b].id)
      && forall id :: HasRef(item.events, id) <==> SeenIn(events, kind, v, id)
  {
    var os := Sightings(events);
    var w := WithValue(OfKind(os, kind), v);
    WithValueValues(OfKind(os, kind), v);
    var refs := DedupRefs(Refs(w));
    forall id ensures HasRef(refs, id) <==> SeenIn(events, kind, v, id) {
      if HasRef(refs, id) {
        ItemEventSound(events, kind, v, id);
      }
      if SeenIn(events, kind, v, id) {
        ItemEventComplete(events, kind, v, id);
      }
    }
    assert HasRef(refs, Refs(w)[0].id);
  }

  // ---------------------------------------------------------------------
  // Search and tabs.

  /** The item filter of the search box, given the lower-cased query and
      the lower-casing function. */
  predicate Matches(item: Item, lq: string, lower: string -> string) {
    || Includes(lower(item.value), lq)
    || (item.linkedValue.Some? && Includes(lower(item.linkedValue.value), lq))
    || (exists n :: 0 <= n < |item.names| && Includes(lower(item.names[n]), lq))
  }

  function FilterItems(items: seq<Item>, lq: string, lower: string -> string): (r: seq<Item>)
    ensures forall x :: x in r <==> x in items && Matches(x, lq, lower)
    ensures |r| <= |items|
  {
    if items == [] then []
    else (if Matches(items[0], lq, lower) then [items[0]] else []) + FilterItems(items[1..], lq, lower)
  }

  /** Every group with its items filtered. */
  function Refine(groups: seq<Group>, lq: string, lower: string -> string): (r: seq<Group>)
    ensures |r| == |groups|
    ensures forall i :: 0 <= i < |r| ==> r[i] == Group(groups[i].kind, FilterItems(groups[i].items, lq, lower))
  {
    seq(|groups|, i requires 0 <= i < |groups| => Group(groups[i].kind, FilterItems(groups[i].items, lq, lower)))
  }

  lemma RefineMember(groups: seq<Group>, lq: string, lower: string -> string)
    ensures forall g :: g in Refine(groups, lq, lower) <==>
      exists i :: 0 <= i < |groups| && g == Group(groups[i].kind, FilterItems(groups[i].items, lq, lower))
  {
    var gs := Refine(groups, lq, lower);
    forall g ensures g in gs <==> exists i :: 0 <= i < |groups| && g == Group(groups[i].kind, FilterItems(groups[i].items, lq, lower)) {
      if exists i :: 0 <= i < |groups| && g == Group(groups[i].kind, FilterItems(groups[i].items, lq, lower)) {
        var i :| 0 <= i < |groups| && g == Group(groups[i].kind, FilterItems(groups[i].items, lq, lower));
        assert gs[i] == g;
      }
    }
  }

  /** `.filter(group => group.items.length > 0)`. */
  function DropEmpty(groups: seq<Group>): seq<Group>
  {
    if groups == [] then []
    else (if groups[0].items != [] then [groups[0]] else []) + DropEmpty(groups[1..])
  }

  lemma {:induction false} DropEmptyHas(groups: seq<Group>, g: Group)
    ensures g in DropEmpty(groups) <==> g in groups && g.items != []
  {
    if groups != [] {
      DropEmptyHas(groups[1..], g);
      assert groups == [groups[0]] + groups[1..];
    }
  }

  /** The empty-group filter keeps exactly the groups with items. */
  lemma DropEmptyMember(groups: seq<Group>)
    ensures forall g :: g in DropEmpty(groups) <==> g in groups && g.items != []
  {
    forall g ensures g in DropEmpty(groups) <==> g in groups && g.items != [] {
      DropEmptyHas(groups, g);
    }
  }

  /** The groups shown for a search text: with an empty text the groups as
      they are, otherwise each group keeps the items that match the
      lower-cased text; groups left empty are not shown. */
  function Search(groups: seq<Group>, query: string, lower: string -> string): (r: seq<Group>)
    ensures forall g :: g in r ==> g.items != []
    ensures query == "" ==> forall g :: g in r <==> g in groups && g.items != []
    ensures query != "" ==> forall g :: g in r <==>
      g.items != [] && exists i :: 0 <= i < |groups| && g == Group(groups[i].kind, FilterItems(groups[i].items, lower(query), lower))
  {
    var gs := if query != "" then Refine(groups, lower(query), lower) else groups;
    RefineMember(groups, lower(query), lower);
    DropEmptyMember(gs);
    DropEmpty(gs)
  }

  lemma {:induction false} DropEmptyNoop(groups: seq<Group>)
    requires forall i :: 0 <= i < |groups| ==> groups[i].items != []
    ensures DropEmpty(groups) == groups
  {
    if groups != [] {
      DropEmptyNoop(groups[1..]);
      assert [groups[0]] + groups[1..] == groups;
    }
  }

  /** One group as the search shows it, before empty groups are dropped. */
  function Shown(g: Group, query: string, lower: string -> string): Group {
    if query != "" then Group(g.kind, FilterItems(g.items, lower(query), lower)) else g
  }

  /** The item filter works item by item, keeping the order. */
  lemma {:induction false} FilterItemsAppend(a: seq<Item>, b: seq<Item>, lq: string, lower: string -> string)
    ensures FilterItems(a + b, lq, lower) == FilterItems(a, lq, lower) + FilterItems(b, lq, lower)
  {
    if a != [] {
      var t := a[1..];
      var h := if Matches(a[0], lq, lower) then [a[0]] else [];
      FilterItemsAppend(t, b, lq, lower);
      assert (a + b)[0] == a[0] && (a + b)[1..] == t + b;
      assert FilterItems(a + b, lq, lower) == h + FilterItems(t + b, lq, lower);
      assert FilterItems(a, lq, lower) == h + FilterItems(t, lq, lower);
    } else {
      assert a + b == b;
    }
  }

  /** The empty-group filter works group by group, keeping the order. */
  lemma {:induction false} DropEmptyAppend(a: seq<Group>, b: seq<Group>)
    ensures DropEmpty(a + b) == DropEmpty(a) + DropEmpty(b)
  {
    if a != [] {
      var t := a[1..];
      var h := if a[0].items != [] then [a[0]] else [];
      DropEmptyAppend(t, b);
      assert (a + b)[0] == a[0] && (a + b)[1..] == t + b;
      assert DropEmpty(a + b) == h + DropEmpty(t + b);
      assert DropEmpty(a) == h + DropEmpty(t);
    } else {
      assert a + b == b;
    }
  }

  lemma RefineAppend(a: seq<Group>, b: seq<Group>, lq: string, lower: string -> string)
    ensures Refine(a + b, lq, lower) == Refine(a, lq, lower) + Refine(b, lq, lower)
  {
    var l, r := Refine(a + b, lq, lower), Refine(a, lq, lower) + Refine(b, lq, lower);
    forall i | 0 <= i < |l| ensures l[i] == r[i] {
      if i < |a| {
        assert (a + b)[i] == a[i];
      } else {
        assert (a + b)[i] == b[i - |a|];
      }
    }
  }

  /** The search works group by group: for `a + b` it shows the groups it
      shows for `a`, then those it shows for `b`. */
  lemma SearchAppend(a: seq<Group>, b: seq<Group>, query: string, lower: string -> string)
    ensures Search(a + b, query, lower) == Search(a, query, lower) + Search(b, query, lower)
  {
    if query != "" {
      RefineAppend(a, b, lower(query), lower);
      DropEmptyAppend(Refine(a, lower(query), lower), Refine(b, lower(query), lower));
    } else {
      DropEmptyAppend(a, b);
    }
  }

  /** A single group is shown, with its matching items, exactly when one of
      its items matches. */
  lemma SearchSingle(g: Group, query: string, lower: string -> string)
    ensures Search([g], query, lower) == if Shown(g, query, lower).items != [] then [Shown(g, query, lower)] else []
  {
    var h := Shown(g, query, lower);
    var gs := if query != "" then Refine([g], lower(query), lower) else [g];
    assert gs == [h];
    assert Search([g], query, lower) == DropEmpty([h]);
    assert [h][1..] == [];
    assert DropEmpty([h]) == (if h.items != [] then [h] else []) + DropEmpty([]);
  }

  lemma {:induction false} SearchNone(groups: seq<Group>, query: string, lower: string -> string)
    requires forall j :: 0 <= j < |groups| ==> Shown(groups[j], query, lower).items == []
    ensures Search(groups, query, lower) == []
  {
    if groups != [] {
      var t := groups[1..];
      SearchNone(t, query, lower);
      SearchAppend([groups[0]], t, query, lower);
      SearchSingle(groups[0], query, lower);
      assert groups == [groups[0]] + t;
    }
  }

  /** After a search the first group shown, and so the default tab, is the
      first group that keeps an item. */
  lemma SearchFirst(groups: seq<Group>, query: string, lower: string -> string, i: nat)
    requires i < |groups| && Shown(groups[i], query, lower).items != []
    requires forall j :: 0 <= j < i ==> Shown(groups[j], query, lower).items == []
    ensures Search(groups, query, lower) != []
    ensures Search(groups, query, lower)[0] == Shown(groups[i], query, lower)
    ensures DefaultTab(Search(groups, query, lower)) == KindName(groups[i].kind)
  {
    var pre, rest := groups[..i], groups[i + 1..];
    assert groups == pre + ([groups[i]] + rest);
    SearchNone(pre, query, lower);
    SearchAppend(pre, [groups[i]] + rest, query, lower);
    SearchAppend([groups[i]], rest, query, lower);
    SearchSingle(groups[i], query, lower);
  }

  /** `artifactGroups`: the aggregate with the search applied. */
  function ArtifactGroups(events: seq<Event>, query: string, lower: string -> string): (r: seq<Group>)
    ensures forall g :: g in r ==> g.items != []
    ensures query == "" ==> r == Aggregate(events)
    ensures query != "" ==> forall g :: g in r <==>
      g.items != [] &&
      exists i :: 0 <= i < |Aggregate(events)| &&
        g == Group(Aggregate(events)[i].kind, FilterItems(Aggregate(events)[i].items, lower(query), lower))
  {
    AggregateShape(events);
    DropEmptyNoop(Aggregate(events));
    Search(Aggregate(events), query, lower)
  }

  /** `artifactGroups[0]?.type || 'hostname'`. */
  function DefaultTab(groups: seq<Group>): (r: string)
    ensures groups == [] ==> r == "hostname"
    ensures groups != [] ==> r == KindName(groups[0].kind)
  {
    if groups != [] then KindName(groups[0].kind) else "hostname"
  }

  predicate HasTab(groups: seq<Group>, tab: string) {
    exists i :: 0 <= i < |groups| && KindName(groups[i].kind) == tab
  }

  /** The effect that moves the tab to the first group when the current one
      has disappeared. */
  function SyncTab(groups: seq<Group>, active: string): (r: string)
    ensures groups != [] ==> HasTab(groups, r)
    ensures HasTab(groups, active) || groups == [] ==> r == active
    ensures !HasTab(groups, active) && groups != [] ==> r == DefaultTab(groups)
  {
    if !HasTab(groups, active) && groups != [] then KindName(groups[0].kind) else active
  }

  /** Running the effect again changes nothing. */
  lemma SyncTabIdempotent(groups: seq<Group>, active: string)
    ensures SyncTab(groups, SyncTab(groups, active)) == SyncTab(groups, active)
  {
  }
}
