/** `handleDeleteEvent` in src/pages/Index.tsx: remove an event together
    with everything below it in the parent tree.

    The source collects descendants with an unguarded recursion
    (`getDescendantIds`). On an acyclic parent relation it ends after at most
    |events| levels; on a cycle it recurses until the call stack overflows,
    and the `try`/`catch` around the filter turns that `RangeError` into
    `return prevEvents`. `Walk` models the recursion with a depth bound
    (`None` = the recursion does not end), and `DeleteEvent` gives the bound
    |events| + 1, which is enough for every acyclic list. */
module CascadeDelete {
  import opened Wrappers
  import opened Events
  import opened Seqs

  /** `currentEvents.filter(event => event.parentId === p)`. */
  function Children(events: seq<Event>, p: string): (r: seq<Event>)
  {
    if events == [] then []
    else (if events[0].parentId == Some(p) then [events[0]] else []) + Children(events[1..], p)
  }

  /** The children of `p` are the events whose parent link names `p`. */
  lemma {:induction false} ChildrenMember(events: seq<Event>, p: string, e: Event)
    ensures e in Children(events, p) <==> e in events && e.parentId == Some(p)
  {
    if events != [] {
      ChildrenMember(events[1..], p, e);
      assert e in events <==> e == events[0] || e in events[1..];
    }
  }

  /** `getDescendantIds(p)` run with `fuel` nested calls available:
      the children's ids followed by the descendants of each child. */
  function Walk(events: seq<Event>, p: string, fuel: nat): Option<seq<string>>
    decreases fuel, 0
  {
    if fuel == 0 then None
    else
      var kids := Children(events, p);
      match WalkAll(events, kids, fuel - 1)
      case None => None
      case Some(deeper) => Some(Ids(kids) + deeper)
  }

  /** `kids.flatMap(child => getDescendantIds(child.id))`. */
  function WalkAll(events: seq<Event>, kids: seq<Event>, fuel: nat): Option<seq<string>>
    decreases fuel, 1, |kids|
  {
    if kids == [] then Some([])
    else
      match Walk(events, kids[0].id, fuel)
      case None => None
      case Some(first) =>
        match WalkAll(events, kids[1..], fuel)
        case None => None
        case Some(rest) => Some(first + rest)
  }

  /** `events.filter(event => !doomed.includes(event.id))`. */
  function FilterOut(events: seq<Event>, doomed: seq<string>): (r: seq<Event>)
    ensures |r| <= |events|
  {
    if events == [] then []
    else (if events[0].id in doomed then [] else [events[0]]) + FilterOut(events[1..], doomed)
  }

  /** An event is kept iff it was there and its id is not doomed. */
  lemma {:induction false} FilterOutMember(events: seq<Event>, doomed: seq<string>, e: Event)
    ensures e in FilterOut(events, doomed) <==> e in events && e.id !in doomed
  {
    if events != [] {
      FilterOutMember(events[1..], doomed, e);
      assert e in events <==> e == events[0] || e in events[1..];
    }
  }

  lemma FilterOutSubset(events: seq<Event>, doomed: seq<string>)
    ensures forall e :: e in FilterOut(events, doomed) ==> e in events
  {
    forall e | e in FilterOut(events, doomed) ensures e in events {
      FilterOutMember(events, doomed, e);
    }
  }

  /** `handleDeleteEvent(id)`. */
  function DeleteEvent(events: seq<Event>, id: string): (r: seq<Event>)
    ensures |r| <= |events|
    ensures forall e :: e in r ==> e in events
  {
    match Walk(events, id, |events| + 1)
    case None => events
    case Some(descendants) =>
      FilterOutSubset(events, [id] + descendants);
      FilterOut(events, [id] + descendants)
  }

  // ---------------------------------------------------------------------
  // The parent relation, stated declaratively.

  /** `events[i]` reaches `p` through k + 1 `parentId` links. */
  ghost predicate Reaches(events: seq<Event>, i: nat, p: string, k: nat)
    decreases k
  {
    && i < |events|
    && events[i].parentId.Some?
    && if k == 0 then events[i].parentId.value == p
       else exists j: nat :: j < |events| && events[i].parentId.value == events[j].id && Reaches(events, j, p, k - 1)
  }

  /** No event whose parent chain reaches `id` lies on a cycle: nothing below
      `id` leads back to itself. Cycles elsewhere in the list are allowed. */
  ghost predicate NoCycleBelow(events: seq<Event>, id: string) {
    forall j: nat, k: nat, m: nat :: Reaches(events, j, id, k) ==> !Reaches(events, j, events[j].id, m)
  }

  /** An id the delete of `id` removes: `id` itself or the id of some event
      whose parent chain reaches `id`. */
  ghost predicate Doomed(events: seq<Event>, x: string, id: string) {
    x == id || exists j: nat, k: nat :: Reaches(events, j, id, k) && events[j].id == x
  }

  /** The events of `s` whose id is not doomed, in their order. */
  ghost function Survivors(all: seq<Event>, s: seq<Event>, id: string): seq<Event> {
    if s == [] then []
    else (if Doomed(all, s[0].id, id) then [] else [s[0]]) + Survivors(all, s[1..], id)
  }

  // ---------------------------------------------------------------------
  // Main results.

  /** When no cycle hangs below `id`, delete removes exactly `id` and the ids
      of its parent-tree descendants and keeps every other event in order,
      whatever cycles the rest of the list holds. Events linked to `id` only
      through lateral-movement fields survive, since only `parentId` links
      count. With `DeleteOnCycle` this covers every list. */
  lemma DeleteNoCycleBelow(events: seq<Event>, id: string)
    requires NoCycleBelow(events, id)
    ensures DeleteEvent(events, id) == Survivors(events, events, id)
  {
    var n := |events| + 1;
    WalkNone(events, id, n);
    if ExistsChain(events, id, n - 1) {
      var j: nat :| Reaches(events, j, id, n - 1);
      NoLongChainsBelow(events, j, id, n - 1);
    }
    var ds := Walk(events, id, n).value;
    WalkSome(events, id, n);
    forall x ensures x in [id] + ds <==> Doomed(events, x, id) {
      if Doomed(events, x, id) && x != id {
        var j: nat, k: nat :| Reaches(events, j, id, k) && events[j].id == x;
        NoLongChainsBelow(events, j, id, k);
        assert ReachedWithin(events, x, id, n);
      }
    }
    FilterOutIsSurvivors(events, events, [id] + ds, id);
  }

  /** The same result as membership: an event survives iff its id is not
      doomed. */
  lemma DeleteNoCycleBelowMember(events: seq<Event>, id: string, e: Event)
    requires NoCycleBelow(events, id)
    ensures e in DeleteEvent(events, id) <==> e in events && !Doomed(events, e.id, id)
  {
    DeleteNoCycleBelow(events, id);
    SurvivorsMember(events, events, id, e);
  }

  lemma {:induction false} SurvivorsMember(all: seq<Event>, s: seq<Event>, id: string, e: Event)
    ensures e in Survivors(all, s, id) <==> e in s && !Doomed(all, e.id, id)
    decreases |s|
  {
    if s != [] {
      SurvivorsMember(all, s[1..], id, e);
      assert e in s <==> e == s[0] || e in s[1..];
    }
  }

  /** When a cycle hangs below `id`, the recursion never ends and the
      caught stack overflow leaves the list unchanged. */
  lemma DeleteOnCycle(events: seq<Event>, id: string, j: nat, k: nat, m: nat)
    requires Reaches(events, j, id, k)
    requires Reaches(events, j, events[j].id, m)
    ensures DeleteEvent(events, id) == events
  {
    var depth := k;
    while depth < |events|
      invariant Reaches(events, j, id, depth)
    {
      Compose(events, j, j, id, m, depth);
      depth := m + 1 + depth;
    }
    Truncate(events, j, id, depth, |events|);
    WalkNone(events, id, |events| + 1);
    assert ExistsChain(events, id, |events|);
  }

  /** Deleting the event just added (no event names it as parent) restores
      the list: add and delete are inverse. */
  lemma AddThenDelete(events: seq<Event>, e: Event)
    requires !HasId(events, e.id)
    requires e.parentId != Some(e.id)
    requires forall i :: 0 <= i < |events| ==> events[i].parentId != Some(e.id)
    ensures DeleteEvent(events + [e], e.id) == events
  {
    var all := events + [e];
    assert Children(all, e.id) == [] by {
      if Children(all, e.id) != [] {
        var c := Children(all, e.id)[0];
        ChildrenMember(all, e.id, c);
      }
    }
    assert Walk(all, e.id, |all| + 1) == Some([]);
    assert [e.id] + [] == [e.id];
    assert DeleteEvent(all, e.id) == FilterOut(all, [e.id]);
    FilterOutAppend(events, [e], [e.id]);
    FilterOutKeepsAll(events, [e.id]);
    assert FilterOut([e], [e.id]) == [];
  }

  // ---------------------------------------------------------------------
  // What the bounded recursion computes.

  /** When the walk over the children succeeds, so does the walk below each
      child, and everything it lists is listed. */
  lemma {:induction false} WalkAllHas(events: seq<Event>, kids: seq<Event>, n: nat, c: Event)
    requires WalkAll(events, kids, n).Some? && c in kids
    ensures Walk(events, c.id, n).Some?
    ensures forall x :: x in Walk(events, c.id, n).value ==> x in WalkAll(events, kids, n).value
    decreases |kids|
  {
    if kids[0] != c {
      assert c in kids[1..];
      WalkAllHas(events, kids[1..], n, c);
    }
  }

  /** One failing child makes the walk over the children fail. */
  lemma {:induction false} WalkAllFails(events: seq<Event>, kids: seq<Event>, n: nat, c: Event)
    requires c in kids && Walk(events, c.id, n).None?
    ensures WalkAll(events, kids, n).None?
    decreases |kids|
  {
    if kids[0] != c {
      assert c in kids[1..];
      WalkAllFails(events, kids[1..], n, c);
    }
  }

  /** A failing walk over the children has a failing child. */
  lemma {:induction false} WalkAllFailure(events: seq<Event>, kids: seq<Event>, n: nat) returns (c: Event)
    requires WalkAll(events, kids, n).None?
    ensures c in kids && Walk(events, c.id, n).None?
    decreases |kids|
  {
    if Walk(events, kids[0].id, n).None? {
      c := kids[0];
    } else {
      c := WalkAllFailure(events, kids[1..], n);
      assert c in kids[1..];
    }
  }

  /** Everything the walk over the children lists comes from one child. */
  lemma {:induction false} WalkAllSource(events: seq<Event>, kids: seq<Event>, n: nat, x: string) returns (c: Event)
    requires WalkAll(events, kids, n).Some? && x in WalkAll(events, kids, n).value
    ensures c in kids && Walk(events, c.id, n).Some? && x in Walk(events, c.id, n).value
    decreases |kids|
  {
    if x in Walk(events, kids[0].id, n).value {
      c := kids[0];
    } else {
      c := WalkAllSource(events, kids[1..], n, x);
      assert c in kids[1..];
    }
  }

  lemma IdsHas(kids: seq<Event>, c: Event)
    requires c in kids
    ensures c.id in Ids(kids)
  {
    var i :| 0 <= i < |kids| && kids[i] == c;
    assert Ids(kids)[i] == c.id;
  }

  lemma IdsSource(kids: seq<Event>, x: string) returns (c: Event)
    requires x in Ids(kids)
    ensures c in kids && c.id == x
  {
    var i :| 0 <= i < |kids| && Ids(kids)[i] == x;
    c := kids[i];
  }

  lemma ChildOf(events: seq<Event>, p: string, m: nat)
    requires m < |events| && events[m].parentId == Some(p)
    ensures events[m] in Children(events, p)
  {
    ChildrenMember(events, p, events[m]);
  }

  lemma KidIndex(events: seq<Event>, p: string, c: Event) returns (m: nat)
    requires c in Children(events, p)
    ensures m < |events| && events[m] == c && events[m].parentId == Some(p)
  {
    ChildrenMember(events, p, c);
    var i :| 0 <= i < |events| && events[i] == c;
    m := i;
  }

  /** Some event's chain reaches `p` in exactly k + 1 links. */
  ghost predicate ExistsChain(events: seq<Event>, p: string, k: nat) {
    exists j: nat :: Reaches(events, j, p, k)
  }

  /** The id of an event whose chain reaches `p` in fewer than n links. */
  ghost predicate ReachedWithin(events: seq<Event>, x: string, p: string, n: nat) {
    exists j: nat, k: nat :: k < n && Reaches(events, j, p, k) && events[j].id == x
  }

  /** One level of the recursion, failure side: it fails iff the walk below
      some child fails. */
  lemma WalkNoneOfKid(events: seq<Event>, p: string, n: nat, c: Event)
    requires n >= 1 && c in Children(events, p) && Walk(events, c.id, n - 1).None?
    ensures Walk(events, p, n).None?
  {
    WalkAllFails(events, Children(events, p), n - 1, c);
    assert WalkAll(events, Children(events, p), n - 1).None?;
  }

  lemma WalkNoneHasKid(events: seq<Event>, p: string, n: nat) returns (c: Event)
    requires n >= 1 && Walk(events, p, n).None?
    ensures c in Children(events, p) && Walk(events, c.id, n - 1).None?
  {
    assert WalkAll(events, Children(events, p), n - 1).None?;
    c := WalkAllFailure(events, Children(events, p), n - 1);
  }

  /** One level of the recursion, success side: the result lists the
      children's ids and what the walk below each child lists. */
  lemma WalkKid(events: seq<Event>, p: string, n: nat, c: Event)
    requires Walk(events, p, n).Some? && c in Children(events, p)
    ensures n >= 1 && Walk(events, c.id, n - 1).Some?
    ensures c.id in Walk(events, p, n).value
    ensures forall x :: x in Walk(events, c.id, n - 1).value ==> x in Walk(events, p, n).value
  {
    var kids := Children(events, p);
    var all := WalkAll(events, kids, n - 1);
    assert Walk(events, p, n) == Some(Ids(kids) + all.value);
    WalkAllHas(events, kids, n - 1, c);
    IdsHas(kids, c);
  }

  lemma WalkSource(events: seq<Event>, p: string, n: nat, x: string) returns (c: Event, direct: bool)
    requires Walk(events, p, n).Some? && x in Walk(events, p, n).value
    ensures n >= 1 && c in Children(events, p)
    ensures direct ==> c.id == x
    ensures !direct ==> Walk(events, c.id, n - 1).Some? && x in Walk(events, c.id, n - 1).value
  {
    var kids := Children(events, p);
    var all := WalkAll(events, kids, n - 1);
    assert Walk(events, p, n) == Some(Ids(kids) + all.value);
    if x in Ids(kids) {
      c := IdsSource(kids, x);
      direct := true;
    } else {
      c := WalkAllSource(events, kids, n - 1, x);
      direct := false;
    }
  }

  lemma WalkSourceAt(events: seq<Event>, p: string, n: nat, x: string) returns (m: nat, direct: bool)
    requires Walk(events, p, n).Some? && x in Walk(events, p, n).value
    ensures n >= 1 && m < |events| && events[m].parentId == Some(p)
    ensures direct ==> events[m].id == x
    ensures !direct ==> Walk(events, events[m].id, n - 1).Some? && x in Walk(events, events[m].id, n - 1).value
  {
    var c;
    c, direct := WalkSource(events, p, n, x);
    m := KidIndex(events, p, c);
  }

  /** The recursion with `n` levels fails exactly when some chain has n links. */
  lemma {:induction false} WalkNone(events: seq<Event>, p: string, n: nat)
    requires n >= 1
    ensures Walk(events, p, n).None? <==> ExistsChain(events, p, n - 1)
    decreases n, 1
  {
    if Walk(events, p, n).None? {
      WalkNoneToChain(events, p, n);
    }
    if ExistsChain(events, p, n - 1) {
      var j: nat :| Reaches(events, j, p, n - 1);
      WalkNoneFromChain(events, p, n, j);
    }
  }

  lemma {:induction false} WalkNoneToChain(events: seq<Event>, p: string, n: nat)
    requires n >= 1 && Walk(events, p, n).None?
    ensures ExistsChain(events, p, n - 1)
    decreases n, 0
  {
    var c := WalkNoneHasKid(events, p, n);
    var m := KidIndex(events, p, c);
    assert Reaches(events, m, p, 0);
    if n >= 2 {
      WalkNone(events, c.id, n - 1);
      var j: nat :| Reaches(events, j, c.id, n - 2);
      Compose(events, j, m, p, n - 2, 0);
    }
  }

  lemma {:induction false} WalkNoneFromChain(events: seq<Event>, p: string, n: nat, j: nat)
    requires n >= 1 && Reaches(events, j, p, n - 1)
    ensures Walk(events, p, n).None?
    decreases n, 0
  {
    if n == 1 {
      ChildrenMember(events, p, events[j]);
      WalkNoneOfKid(events, p, n, events[j]);
    } else {
      var m := Split(events, j, p, n - 1);
      ChildrenMember(events, p, events[m]);
      WalkNone(events, events[m].id, n - 1);
      WalkNoneOfKid(events, p, n, events[m]);
    }
  }

  /** When the recursion with `n` levels succeeds, it lists exactly the ids of
      the events whose chain reaches `p` in fewer than n links. */
  lemma WalkSome(events: seq<Event>, p: string, n: nat)
    requires Walk(events, p, n).Some?
    ensures forall x :: x in Walk(events, p, n).value <==> ReachedWithin(events, x, p, n)
  {
    forall x ensures x in Walk(events, p, n).value <==> ReachedWithin(events, x, p, n) {
      if x in Walk(events, p, n).value {
        var j, k := WalkSomeSound(events, p, n, x);
        Within(events, x, p, n, j, k);
      }
      if ReachedWithin(events, x, p, n) {
        var j: nat, k: nat :| k < n && Reaches(events, j, p, k) && events[j].id == x;
        WalkSomeComplete(events, p, n, j, k);
      }
    }
  }

  /** Every id the recursion lists belongs to an event whose chain reaches
      `p` in fewer than n links; the event and the chain length are returned. */
  lemma {:induction false} WalkSomeSound(events: seq<Event>, p: string, n: nat, x: string) returns (j: nat, k: nat)
    requires Walk(events, p, n).Some? && x in Walk(events, p, n).value
    ensures k < n && Reaches(events, j, p, k) && events[j].id == x
    decreases n
  {
    var m, direct := WalkSourceAt(events, p, n, x);
    if direct {
      j, k := ChildWitness(events, m, p, n, x);
    } else {
      var j', k' := WalkSomeSound(events, events[m].id, n - 1, x);
      j, k := StepWitness(events, m, p, n, x, j', k');
    }
  }

  lemma ChildWitness(events: seq<Event>, m: nat, p: string, n: nat, x: string) returns (j: nat, k: nat)
    requires n >= 1 && m < |events| && events[m].parentId == Some(p) && events[m].id == x
    ensures k < n && Reaches(events, j, p, k) && events[j].id == x
  {
    ParentReaches(events, m, p);
    j, k := m, 0;
  }

  lemma StepWitness(events: seq<Event>, m: nat, p: string, n: nat, x: string, j': nat, k': nat) returns (j: nat, k: nat)
    requires n >= 1 && m < |events| && events[m].parentId == Some(p)
    requires k' < n - 1 && Reaches(events, j', events[m].id, k') && events[j'].id == x
    ensures k < n && Reaches(events, j, p, k) && events[j].id == x
  {
    ParentStep(events, j', m, p, k');
    j, k := j', k' + 1;
  }

  lemma ParentReaches(events: seq<Event>, m: nat, p: string)
    requires m < |events| && events[m].parentId == Some(p)
    ensures Reaches(events, m, p, 0)
  {
  }

  /** A chain to a child of `p` extends by one link to `p`. */
  lemma ParentStep(events: seq<Event>, a: nat, m: nat, p: string, k: nat)
    requires m < |events| && events[m].parentId == Some(p)
    requires Reaches(events, a, events[m].id, k)
    ensures Reaches(events, a, p, k + 1)
  {
    ParentReaches(events, m, p);
    Compose(events, a, m, p, k, 0);
  }

  lemma Within(events: seq<Event>, x: string, p: string, n: nat, j: nat, k: nat)
    requires k < n && Reaches(events, j, p, k) && events[j].id == x
    ensures ReachedWithin(events, x, p, n)
  {
  }

  lemma {:induction false} WalkSomeComplete(events: seq<Event>, p: string, n: nat, j: nat, k: nat)
    requires Walk(events, p, n).Some? && k < n && Reaches(events, j, p, k)
    ensures events[j].id in Walk(events, p, n).value
    decreases n
  {
    if k == 0 {
      WalkChildAt(events, p, n, j);
    } else {
      var m := Split(events, j, p, k);
      WalkChildAt(events, p, n, m);
      WalkSomeComplete(events, events[m].id, n - 1, j, k - 1);
      WalkGrandchildAt(events, p, n, m, events[j].id);
    }
  }

  /** The walk below `p` lists each child of `p` and succeeds below it. */
  lemma WalkChildAt(events: seq<Event>, p: string, n: nat, m: nat)
    requires Walk(events, p, n).Some? && m < |events| && events[m].parentId == Some(p)
    ensures n >= 1 && Walk(events, events[m].id, n - 1).Some?
    ensures events[m].id in Walk(events, p, n).value
  {
    ChildOf(events, p, m);
    WalkKid(events, p, n, events[m]);
  }

  /** The walk below `p` lists what the walk below a child lists. */
  lemma WalkGrandchildAt(events: seq<Event>, p: string, n: nat, m: nat, x: string)
    requires Walk(events, p, n).Some? && m < |events| && events[m].parentId == Some(p)
    requires n >= 1 && Walk(events, events[m].id, n - 1).Some? && x in Walk(events, events[m].id, n - 1).value
    ensures x in Walk(events, p, n).value
  {
    ChildOf(events, p, m);
    WalkKid(events, p, n, events[m]);
  }

  // ---------------------------------------------------------------------
  // Chains.

  /** A chain of m + 1 links into `events[b]` followed by one of k + 1 links
      from `events[b]` to `p` is a chain of m + k + 2 links. */
  lemma {:induction false} Compose(events: seq<Event>, a: nat, b: nat, p: string, m: nat, k: nat)
    requires b < |events|
    requires Reaches(events, a, events[b].id, m)
    requires Reaches(events, b, p, k)
    ensures Reaches(events, a, p, m + 1 + k)
    decreases m
  {
    if m > 0 {
      var j: nat :| j < |events| && events[a].parentId.value == events[j].id && Reaches(events, j, events[b].id, m - 1);
      Compose(events, j, b, p, m - 1, k);
    }
  }

  /** The first link of a chain of k + 1 > 1 links ends at a child of `p`. */
  lemma {:induction false} Split(events: seq<Event>, j: nat, p: string, k: nat) returns (m: nat)
    requires k > 0 && Reaches(events, j, p, k)
    ensures m < |events| && events[m].parentId == Some(p)
    ensures Reaches(events, j, events[m].id, k - 1)
    decreases k
  {
    var j1: nat :| j1 < |events| && events[j].parentId.value == events[j1].id && Reaches(events, j1, p, k - 1);
    if k == 1 {
      m := j1;
    } else {
      m := Split(events, j1, p, k - 1);
      assert Reaches(events, j, events[m].id, k - 1) by {
        assert events[j].parentId.value == events[j1].id && Reaches(events, j1, events[m].id, k - 2);
      }
    }
  }

  /** Every chain has sub-chains of every shorter length ending at `p`. */
  lemma {:induction false} Truncate(events: seq<Event>, j: nat, p: string, k: nat, k': nat)
    requires Reaches(events, j, p, k) && k' <= k
    ensures exists j': nat :: Reaches(events, j', p, k')
    decreases k
  {
    if k' < k {
      var j1: nat :| j1 < |events| && events[j].parentId.value == events[j1].id && Reaches(events, j1, p, k - 1);
      Truncate(events, j1, p, k - 1, k');
    }
  }

  /** The indices visited along a chain, each linked to the next. */
  ghost predicate IsChain(events: seq<Event>, c: seq<nat>) {
    && (forall t :: 0 <= t < |c| ==> c[t] < |events|)
    && (forall t :: 0 <= t < |c| - 1 ==> events[c[t]].parentId == Some(events[c[t + 1]].id))
  }

  lemma {:induction false} ChainOf(events: seq<Event>, j: nat, p: string, k: nat) returns (c: seq<nat>)
    requires Reaches(events, j, p, k)
    ensures |c| == k + 1 && c[0] == j && IsChain(events, c)
    ensures events[c[k]].parentId == Some(p)
    decreases k
  {
    if k == 0 {
      c := [j];
    } else {
      var j1: nat :| j1 < |events| && events[j].parentId.value == events[j1].id && Reaches(events, j1, p, k - 1);
      var rest := ChainOf(events, j1, p, k - 1);
      c := [j] + rest;
      assert forall t :: 1 <= t < |c| ==> c[t] == rest[t - 1];
    }
  }

  lemma {:induction false} ChainSegment(events: seq<Event>, c: seq<nat>, a: nat, b: nat)
    requires IsChain(events, c) && a < b < |c|
    ensures Reaches(events, c[a], events[c[b]].id, b - a - 1)
    decreases b - a
  {
    if b > a + 1 {
      ChainSegment(events, c, a + 1, b);
      assert events[c[a]].parentId.value == events[c[a + 1]].id;
    }
  }

  /** Every suffix of a chain into `p` is itself a chain into `p`. */
  lemma ChainSuffix(events: seq<Event>, c: seq<nat>, p: string, a: nat)
    requires IsChain(events, c) && a < |c| - 1 && events[c[|c| - 1]].parentId == Some(p)
    ensures Reaches(events, c[a], p, |c| - 1 - a)
  {
    ChainSegment(events, c, a, |c| - 1);
    ParentStep(events, c[a], c[|c| - 1], p, |c| - 2 - a);
  }

  /** Without a cycle below `p` no chain into `p` is longer than the list:
      pigeonhole on the visited indices finds a repeated event, and the part
      of the chain after it still reaches `p`. */
  lemma NoLongChainsBelow(events: seq<Event>, j: nat, p: string, k: nat)
    requires NoCycleBelow(events, p) && Reaches(events, j, p, k)
    ensures k < |events|
  {
    if k >= |events| {
      var c := ChainOf(events, j, p, k);
      Pigeonhole(c, |events|);
      var a, b :| 0 <= a < b < |c| && c[a] == c[b];
      ChainSegment(events, c, a, b);
      ChainSuffix(events, c, p, a);
    }
  }

  // ---------------------------------------------------------------------
  // Filtering.

  lemma {:induction false} FilterOutIsSurvivors(all: seq<Event>, s: seq<Event>, doomed: seq<string>, id: string)
    requires forall x :: x in doomed <==> Doomed(all, x, id)
    ensures FilterOut(s, doomed) == Survivors(all, s, id)
    decreases |s|
  {
    if s != [] {
      FilterOutIsSurvivors(all, s[1..], doomed, id);
    }
  }

  lemma {:induction false} FilterOutAppend(a: seq<Event>, b: seq<Event>, doomed: seq<string>)
    ensures FilterOut(a + b, doomed) == FilterOut(a, doomed) + FilterOut(b, doomed)
    decreases |a|
  {
    if a != [] {
      FilterOutAppend(a[1..], b, doomed);
      assert (a + b)[1..] == a[1..] + b;
      assert (a + b)[0] == a[0];
    } else {
      assert a + b == b;
    }
  }

  lemma {:induction false} FilterOutKeepsAll(s: seq<Event>, doomed: seq<string>)
    requires forall i :: 0 <= i < |s| ==> s[i].id !in doomed
    ensures FilterOut(s, doomed) == s
    decreases |s|
  {
    if s != [] {
      FilterOutKeepsAll(s[1..], doomed);
    }
  }
}
