/** The graph view (src/components/Visualization.tsx): the node list shown
    for a list of events, with saved positions laid over the computed
    layout, the position map handed back after a drag, and the root flag
    of a node. `calculateLayout` (in
    src/components/visualization/layoutUtils) is not part of this model: it
    is a parameter, and nothing is assumed of its positions or edges. */
module Visualization {
  import opened Wrappers
  import opened Js
  import opened Events
  import opened GraphModel
  import opened LateralMovement

  /** A React Flow position. Positions are carried, never computed, so
      their coordinates stay uninterpreted numbers. */
  datatype XY = XY(x: real, y: real)

  datatype Node = Node(id: string, position: XY, data: Event)

  datatype Edge = Edge(id: string, source: string, target: string)

  datatype Layout = Layout(nodes: seq<Node>, edges: seq<Edge>)

  /** `savedPositions[node.id] || node.position` for every node: a stored
      position object is always truthy, so any saved entry wins. */
  function Overlay(nodes: seq<Node>, saved: map<string, XY>): (r: seq<Node>)
    ensures |r| == |nodes|
    ensures forall i :: 0 <= i < |nodes| ==>
      r[i].id == nodes[i].id && r[i].data == nodes[i].data
      && r[i].position == (if nodes[i].id in saved then saved[nodes[i].id] else nodes[i].position)
  {
    seq(|nodes|, i requires 0 <= i < |nodes| =>
      var n := nodes[i];
      n.(position := if n.id in saved then saved[n.id] else n.position))
  }

  /** The effect on `[events, savedPositions]`: no events give an empty
      graph without running the layout; otherwise the layout's nodes, with
      saved positions laid over them when a map is given, and its edges. */
  function Refresh(events: seq<Event>, saved: Option<map<string, XY>>, layout: seq<Event> -> Layout): (r: Layout)
    ensures events == [] ==> r == Layout([], [])
    ensures events != [] ==> r.edges == layout(events).edges && |r.nodes| == |layout(events).nodes|
    ensures events != [] && saved.None? ==> r == layout(events)
    ensures events != [] && saved.Some? ==> r.nodes == Overlay(layout(events).nodes, saved.value)
  {
    if events == [] then Layout([], [])
    else
      var computed := layout(events);
      if saved.Some? then Layout(Overlay(computed.nodes, saved.value), computed.edges)
      else computed
  }

  /** The ids of a node list, as a set. */
  function NodeIds(nodes: seq<Node>): (r: set<string>)
    ensures forall x :: x in r <==> exists i :: 0 <= i < |nodes| && nodes[i].id == x
  {
    set i | 0 <= i < |nodes| :: nodes[i].id
  }

  /** The map the drag handlers build with `reduce`: each node's id mapped to
      its position, a later node overwriting an earlier one with the same
      id. */
  function Positions(nodes: seq<Node>): (m: map<string, XY>)
    ensures m.Keys == NodeIds(nodes)
  {
    if nodes == [] then map[]
    else
      var init := nodes[..|nodes| - 1];
      var last := nodes[|nodes| - 1];
      var m := Positions(init)[last.id := last.position];
      assert NodeIds(nodes) == NodeIds(init) + {last.id} by {
        forall x | x in NodeIds(nodes) ensures x in NodeIds(init) + {last.id} {
          var i :| 0 <= i < |nodes| && nodes[i].id == x;
          if i < |init| {
            assert init[i].id == x;
          }
        }
      }
      m
  }

  /** Each id maps to the position of the last node carrying it. */
  lemma {:induction false} PositionsLastWins(nodes: seq<Node>, i: nat)
    requires i < |nodes|
    requires forall j :: i < j < |nodes| ==> nodes[j].id != nodes[i].id
    ensures Positions(nodes)[nodes[i].id] == nodes[i].position
  {
    var init := nodes[..|nodes| - 1];
    if i < |nodes| - 1 {
      assert init[i] == nodes[i];
      PositionsLastWins(init, i);
    }
  }

  /** Laying a graph's own positions back over it changes nothing when its
      ids are distinct: a drag followed by a refresh keeps every node where
      it was dropped. */
  lemma OverlayOwnPositions(nodes: seq<Node>)
    requires forall i, j :: 0 <= i < j < |nodes| ==> nodes[i].id != nodes[j].id
    ensures Overlay(nodes, Positions(nodes)) == nodes
  {
    var r := Overlay(nodes, Positions(nodes));
    forall i | 0 <= i < |nodes| ensures r[i] == nodes[i] {
      PositionsLastWins(nodes, i);
    }
  }

  /** The page's `handleResetLayout` empties the saved map; the next
      refresh then shows the computed layout unchanged. */
  lemma ResetShowsLayout(events: seq<Event>, layout: seq<Event> -> Layout)
    requires events != []
    ensures Refresh(events, Some(map[]), layout) == layout(events)
  {
    var r := Refresh(events, Some(map[]), layout);
    assert r.nodes == layout(events).nodes;
  }

  /** A node is drawn as a root (ring and diamond) iff its event has no
      parent id or an empty one. */
  function IsRoot(e: Event): (r: bool)
    ensures r <==> e.parentId.None? || e.parentId == Some("")
  {
    !Truthy(e.parentId)
  }

  /** Events created by the page start as roots: a new event without a
      parent argument, and the event a lateral movement creates. */
  lemma NewEventsAreRoots(events: seq<Event>, freshId: string, nowIso: string, d: Destination)
    ensures IsRoot(AddEvent(events, None, freshId, nowIso).0[|events|])
    ensures IsRoot(InitialAccess(d, freshId, nowIso))
  {
  }
}
