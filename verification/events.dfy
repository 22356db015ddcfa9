/** The records of the incident timeline (`TimelineEvent`, `Artifact`,
    `NetworkDetails` in src/pages/Index.tsx). Optional properties are
    `Option`s: `None` is an absent key, `Some("")` an empty string. */
module Events {
  import opened Wrappers

  /** The closed set of artifact types. */
  datatype ArtifactType =
    | Hostname | Domain | File | Ip | Hash | Custom | Email | Command | User

  /** The string a type is stored and displayed as. */
  function KindName(k: ArtifactType): string {
    match k
    case Hostname => "hostname"
    case Domain => "domain"
    case File => "file"
    case Ip => "ip"
    case Hash => "hash"
    case Custom => "custom"
    case Email => "email"
    case Command => "command"
    case User => "user"
  }

  datatype Artifact = Artifact(
    kind: ArtifactType,
    name: string,
    value: string,
    linkedValue: Option<string>)

  datatype NetworkDetails = NetworkDetails(
    proxyIp: Option<string>,
    port: Option<string>,
    destinationIp: Option<string>)

  /** Which pane the event dialog opens on. */
  datatype View = Details | Search | Log

  datatype Event = Event(
    id: string,
    timestamp: string,
    title: string,
    description: string,
    tactic: Option<string>,
    technique: Option<string>,
    parentId: Option<string>,
    artifacts: seq<Artifact>,
    order: Option<int>,
    searchQuery: Option<string>,
    rawLog: Option<string>,
    attachedFile: Option<string>,
    host: Option<string>,
    user: Option<string>,
    process: Option<string>,
    sha256: Option<string>,
    networkDetails: Option<NetworkDetails>,
    lateralMovementSource: Option<string>,
    lateralMovementTarget: Option<string>,
    initialView: Option<View>)

  /** An event with only the mandatory fields set. */
  function Shell(id: string, timestamp: string, title: string, parentId: Option<string>): Event {
    Event(id, timestamp, title, "", None, None, parentId, [], None,
          None, None, None, None, None, None, None, None, None, None, None)
  }

  /** `event.title || 'Untitled Event'`, how lists, nodes and the parent
      picker name an event. */
  function DisplayTitle(e: Event): (r: string)
    ensures r != ""
    ensures e.title != "" ==> r == e.title
    ensures e.title == "" ==> r == "Untitled Event"
  {
    if e.title != "" then e.title else "Untitled Event"
  }

  /** The ids of a list of events, in order. */
  function Ids(events: seq<Event>): (r: seq<string>)
    ensures |r| == |events|
    ensures forall i :: 0 <= i < |events| ==> r[i] == events[i].id
  {
    if events == [] then [] else [events[0].id] + Ids(events[1..])
  }

  /** No two events share an id. */
  predicate UniqueIds(events: seq<Event>) {
    forall i, j :: 0 <= i < j < |events| ==> events[i].id != events[j].id
  }

  /** Some event carries the id. */
  predicate HasId(events: seq<Event>, id: string) {
    exists i :: 0 <= i < |events| && events[i].id == id
  }

  /** `events.find(e => e.id === id)`. */
  function Find(events: seq<Event>, id: string): (r: Option<Event>)
    ensures r.Some? <==> HasId(events, id)
    ensures r.Some? ==> r.value in events && r.value.id == id
    ensures r.Some? ==>
      exists i :: 0 <= i < |events| && events[i] == r.value && (forall j :: 0 <= j < i ==> events[j].id != id)
  {
    if events == [] then None
    else if events[0].id == id then Some(events[0])
    else
      var r := Find(events[1..], id);
      assert HasId(events[1..], id) ==> HasId(events, id) by {
        if HasId(events[1..], id) {
          var i :| 0 <= i < |events[1..]| && events[1..][i].id == id;
          assert events[i + 1].id == id;
        }
      }
      assert HasId(events, id) ==> HasId(events[1..], id) by {
        if HasId(events, id) {
          var i :| 0 <= i < |events| && events[i].id == id;
          assert i > 0 && events[1..][i - 1].id == id;
        }
      }
      if r.Some? then
        ghost var i :| 0 <= i < |events[1..]| && events[1..][i] == r.value
          && forall j :: 0 <= j < i ==> events[1..][j].id != id;
        assert events[i + 1] == r.value;
        assert forall j :: 0 <= j < i + 1 ==> events[j].id != id by {
          forall j | 0 <= j < i + 1 ensures events[j].id != id {
            if j > 0 { assert events[j] == events[1..][j - 1]; }
          }
        }
        r
      else r
  }

  /** Under unique ids, looking an event's id up finds that event. */
  lemma FindUnique(events: seq<Event>, i: nat)
    requires UniqueIds(events) && i < |events|
    ensures Find(events, events[i].id) == Some(events[i])
  {
    var r := Find(events, events[i].id);
    assert HasId(events, events[i].id);
    var k :| 0 <= k < |events| && events[k] == r.value && (forall j :: 0 <= j < k ==> events[j].id != events[i].id);
    assert !(i < k);
  }
}
