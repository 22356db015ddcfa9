/** `handleLateralMovement` in src/pages/Index.tsx: record a pivot from a
    source event to a destination host, given as `"host"` or
    `"host (ip)"`. */
module LateralMovement {
  import opened Wrappers
  import opened Js
  import opened Events

  // ---------------------------------------------------------------------
  // The pattern /^(.*?)\s*\((.*?)\)$/ .

  /** Characters `.` does not match. */
  predicate IsLineTerminator(c: char) {
    c == '\n' || c == '\r' || c == '\U{2028}' || c == '\U{2029}'
  }

  /** Characters `\s` matches. */
  predicate IsSpace(c: char) {
    || c == '\t' || c == '\n' || c == '\U{000B}' || c == '\U{000C}' || c == '\r' || c == ' '
    || c == '\U{00A0}' || c == '\U{1680}' || ('\U{2000}' <= c <= '\U{200A}')
    || c == '\U{2028}' || c == '\U{2029}' || c == '\U{202F}' || c == '\U{205F}'
    || c == '\U{3000}' || c == '\U{FEFF}'
  }

  predicate NoTerminator(s: string) {
    forall i :: 0 <= i < |s| ==> !IsLineTerminator(s[i])
  }

  /** Length of the run of `\s` characters starting at `i`. */
  function SpaceRun(s: string, i: nat): (n: nat)
    requires i <= |s|
    ensures i + n <= |s|
    ensures forall t :: i <= t < i + n ==> IsSpace(s[t])
    ensures i + n < |s| ==> !IsSpace(s[i + n])
    decreases |s| - i
  {
    if i < |s| && IsSpace(s[i]) then 1 + SpaceRun(s, i + 1) else 0
  }

  /** The pattern matches with group 1 = `s[..L]`: group 1 holds no line
      terminator, the greedy `\s*` run after it ends at `(`, and group 2
      runs from there to a final `)` with no line terminator. (A shorter
      `\s*` run would leave a space, not `(`, so only the longest run can
      succeed.) */
  predicate SplitsAt(s: string, L: nat) {
    && L <= |s|
    && NoTerminator(s[..L])
    && var open := L + SpaceRun(s, L);
       && open + 2 <= |s|
       && s[open] == '('
       && s[|s| - 1] == ')'
       && NoTerminator(s[open + 1..|s| - 1])
  }

  /** The lazy group 1 tries L = 0, 1, ... and stops at the first split; it
      cannot extend over a line terminator. */
  function FindSplit(s: string, L: nat): (r: Option<nat>)
    requires L <= |s| && NoTerminator(s[..L])
    ensures r.Some? ==> L <= r.value <= |s|
    decreases |s| - L
  {
    if SplitsAt(s, L) then Some(L)
    else if L < |s| && !IsLineTerminator(s[L]) then
      assert s[..L + 1] == s[..L] + [s[L]];
      FindSplit(s, L + 1)
    else None
  }

  /** The search returns the first split at or after `L`, and fails only
      when there is none. */
  lemma {:induction false} FindSplitFirstFrom(s: string, L: nat)
    requires L <= |s| && NoTerminator(s[..L])
    ensures FindSplit(s, L).Some? ==> SplitsAt(s, FindSplit(s, L).value)
    ensures FindSplit(s, L).Some? ==> forall L' :: L <= L' < FindSplit(s, L).value ==> !SplitsAt(s, L')
    ensures FindSplit(s, L).None? ==> forall L' :: L <= L' ==> !SplitsAt(s, L')
    decreases |s| - L
  {
    if SplitsAt(s, L) {
    } else if L < |s| && !IsLineTerminator(s[L]) {
      assert s[..L + 1] == s[..L] + [s[L]];
      FindSplitFirstFrom(s, L + 1);
    } else {
      forall L' | L < L' <= |s| ensures !NoTerminator(s[..L']) {
        assert s[..L'][L] == s[L];
      }
    }
  }

  /** The parsed destination: `destHostname` and `destIP`. */
  datatype Destination = Destination(hostname: string, ip: Option<string>)

  /** `L` is the first split and `d` holds the two groups it gives. */
  predicate IsMatch(s: string, L: nat, d: Destination) {
    && SplitsAt(s, L)
    && (forall L': nat :: L' < L ==> !SplitsAt(s, L'))
    && d.hostname == s[..L]
    && d.ip == Some(s[L + SpaceRun(s, L) + 1..|s| - 1])
  }

  /** `destinationHost.match(...)`: groups 1 and 2 on a match, otherwise the
      whole string as hostname and no IP. */
  function ParseDestination(s: string): (d: Destination)
    ensures d.ip.None? ==> d.hostname == s
  {
    assert s[..0] == [];
    FindSplitFirstFrom(s, 0);
    match FindSplit(s, 0)
    case Some(L) => Destination(s[..L], Some(s[L + SpaceRun(s, L) + 1..|s| - 1]))
    case None => Destination(s, None)
  }

  /** An IP is found exactly when the pattern matches, and then the two
      groups are those of the first split. */
  lemma ParseDestinationMatches(s: string)
    ensures ParseDestination(s).ip.Some? <==> exists L: nat :: SplitsAt(s, L)
    ensures ParseDestination(s).ip.Some? ==> exists L: nat :: IsMatch(s, L, ParseDestination(s))
  {
    assert s[..0] == [];
    FindSplitFirstFrom(s, 0);
    match FindSplit(s, 0)
    case Some(L) =>
      assert IsMatch(s, L, ParseDestination(s));
    case None =>
  }

  /** `s` with its trailing `\s` run removed. */
  function TrimEnd(s: string): (r: string)
    ensures r <= s
    ensures forall t :: |r| <= t < |s| ==> IsSpace(s[t])
    ensures |r| > 0 ==> !IsSpace(r[|r| - 1])
  {
    if |s| > 0 && IsSpace(s[|s| - 1]) then TrimEnd(s[..|s| - 1]) else s
  }

  /** On a string without line breaks the pattern reads simply: when it ends
      in `)` and contains `(`, the hostname is the text before the first `(`
      less its trailing spaces and the IP is the text between that `(` and
      the final `)`; otherwise the whole string is the hostname. */
  lemma ParseSingleLine(s: string)
    requires NoTerminator(s)
    ensures if |s| > 0 && s[|s| - 1] == ')' && '(' in s then
        var q := FirstOpen(s);
        ParseDestination(s) == Destination(TrimEnd(s[..q]), Some(s[q + 1..|s| - 1]))
      else
        ParseDestination(s) == Destination(s, None)
  {
    if |s| > 0 && s[|s| - 1] == ')' && '(' in s {
      ParseSingleLineMatch(s);
    } else {
      ParseDestinationMatches(s);
      assert !exists L: nat :: SplitsAt(s, L);
    }
  }

  lemma ParseSingleLineMatch(s: string)
    requires NoTerminator(s) && |s| > 0 && s[|s| - 1] == ')' && '(' in s
    ensures var q := FirstOpen(s);
      ParseDestination(s) == Destination(TrimEnd(s[..q]), Some(s[q + 1..|s| - 1]))
  {
    var q := FirstOpen(s);
    var w := |TrimEnd(s[..q])|;
    FirstSplitSingleLine(s, q, w);
    assert s[..0] == [];
    FindSplitFirst(s, w);
    ParseAtSplit(s, w);
    assert w + SpaceRun(s, w) + 1 == q + 1;
    assert TrimEnd(s[..q]) == s[..q][..w] == s[..w];
  }

  /** The lazy search stops at the first split. */
  lemma FindSplitFirst(s: string, w: nat)
    requires SplitsAt(s, w)
    requires forall L': nat :: L' < w ==> !SplitsAt(s, L')
    ensures s[..0] == [] && FindSplit(s, 0) == Some(w)
  {
    assert s[..0] == [];
    FindSplitFirstFrom(s, 0);
    assert FindSplit(s, 0).Some?;
  }

  /** The groups a found split gives. */
  lemma ParseAtSplit(s: string, w: nat)
    requires s[..0] == [] && SplitsAt(s, w) && FindSplit(s, 0) == Some(w)
    ensures ParseDestination(s) == Destination(s[..w], Some(s[w + SpaceRun(s, w) + 1..|s| - 1]))
  {
  }

  /** On a single line, the first split is at the end of the text before the
      first `(` less its trailing spaces. */
  lemma FirstSplitSingleLine(s: string, q: nat, w: nat)
    requires NoTerminator(s) && |s| > 0 && s[|s| - 1] == ')' && '(' in s
    requires q == FirstOpen(s) && w == |TrimEnd(s[..q])|
    ensures SpaceRun(s, w) == q - w
    ensures SplitsAt(s, w)
    ensures forall L': nat :: L' < w ==> !SplitsAt(s, L')
  {
    assert s[..q][..w] == s[..w];
    SpaceRunTo(s, w, q);
    assert s[..w] == s[..q][..w];
    forall L': nat | L' < w ensures !SplitsAt(s, L') {
      assert s[..q][w - 1] == s[w - 1];
      SpaceRunStops(s, L', w - 1);
      var open := L' + SpaceRun(s, L');
      assert s[..q][open] == s[open];
    }
  }

  /** Position of the first `(`. */
  function FirstOpen(s: string): (q: nat)
    requires '(' in s
    ensures q < |s| && s[q] == '(' && '(' !in s[..q]
  {
    if s[0] == '(' then 0 else
      var q := 1 + FirstOpen(s[1..]);
      assert s[..q] == [s[0]] + s[1..][..q - 1];
      q
  }

  lemma {:induction false} SpaceRunTo(s: string, i: nat, q: nat)
    requires i <= q < |s| && !IsSpace(s[q])
    requires forall t :: i <= t < q ==> IsSpace(s[t])
    ensures SpaceRun(s, i) == q - i
    decreases q - i
  {
    if i < q {
      SpaceRunTo(s, i + 1, q);
    }
  }

  lemma {:induction false} SpaceRunStops(s: string, i: nat, x: nat)
    requires i <= x < |s| && !IsSpace(s[x])
    ensures i + SpaceRun(s, i) <= x
    decreases x - i
  {
    if i < x && IsSpace(s[i]) {
      SpaceRunStops(s, i + 1, x);
    }
  }

  /** The usual input `"host (ip)"`, with one space, parses into its two
      parts. */
  lemma ParseHostAndIp(h: string, ip: string)
    requires NoTerminator(h) && NoTerminator(ip)
    requires '(' !in h
    requires |h| > 0 && !IsSpace(h[|h| - 1])
    ensures ParseDestination(h + " (" + ip + ")") == Destination(h, Some(ip))
  {
    var s := h + " (" + ip + ")";
    var q := |h| + 1;
    assert s[..|h|] == h && s[|h|] == ' ' && s[q] == '(';
    assert s[q + 1..|s| - 1] == ip;
    assert NoTerminator(s) by {
      forall i | 0 <= i < |s| ensures !IsLineTerminator(s[i]) {
        if i < |h| { assert s[i] == h[i]; }
        else if q < i < |s| - 1 { assert s[i] == ip[i - q - 1]; }
      }
    }
    assert '(' !in s[..q] by {
      assert s[..q] == h + [' '];
    }
    assert FirstOpen(s) == q;
    assert TrimEnd(s[..q]) == h by {
      assert s[..q] == h + " ";
      assert (h + " ")[..|h|] == h;
    }
    ParseSingleLine(s);
  }

  // ---------------------------------------------------------------------
  // The two records the movement writes.

  /** `destHostname || destIP`. */
  function Label(d: Destination): (r: Option<string>)
    ensures d.hostname != "" ==> r == Some(d.hostname)
    ensures d.hostname == "" ==> r == d.ip
  {
    Or(Some(d.hostname), d.ip)
  }

  /** `destIP && destHostname ? destIP : undefined`. */
  function LinkedIp(d: Destination): (r: Option<string>)
    ensures r.Some? <==> Truthy(d.ip) && d.hostname != ""
    ensures r.Some? ==> r == d.ip
  {
    if Truthy(d.ip) && d.hostname != "" then d.ip else None
  }

  /** A hostname artifact naming the destination. */
  function HostArtifact(d: Destination, name: string): (a: Artifact)
    ensures a.kind == Hostname && a.name == name
    ensures a.value == OrEmpty(Label(d))
    ensures a.linkedValue == LinkedIp(d)
  {
    Artifact(Hostname, name, OrEmpty(Label(d)), LinkedIp(d))
  }

  const SourceHost := "Source Host"
  const DestinationHost := "Destination Host"

  /** The "Initial Access" event recorded on the destination. */
  function InitialAccess(d: Destination, freshId: string, nowIso: string): (e: Event)
    ensures e.id == freshId && e.timestamp == Take(nowIso, 16)
    ensures e.title == "Initial Access on " + Show(Label(d))
    ensures e.tactic == Some("Initial Access") && e.technique == Some("Valid Accounts")
    ensures e.parentId == None && e.host == Label(d)
    ensures e.description == ""
    ensures e.artifacts == [HostArtifact(d, SourceHost)]
    ensures e.order.None? && e.searchQuery.None? && e.rawLog.None? && e.attachedFile.None?
    ensures e.user.None? && e.process.None? && e.sha256.None? && e.networkDetails.None?
    ensures e.lateralMovementSource.None? && e.lateralMovementTarget.None? && e.initialView.None?
  {
    Shell(freshId, Take(nowIso, 16), "Initial Access on " + Show(Label(d)), None)
      .(tactic := Some("Initial Access"), technique := Some("Valid Accounts"),
        artifacts := [HostArtifact(d, SourceHost)], host := Label(d))
  }

  predicate IsHostSlot(a: Artifact) {
    a.name == SourceHost || a.name == DestinationHost
  }

  /** The artifacts that are neither the source nor the destination host,
      in order. */
  function OtherArtifacts(arts: seq<Artifact>): (r: seq<Artifact>)
    ensures |r| <= |arts|
    ensures forall i :: 0 <= i < |r| ==> !IsHostSlot(r[i])
    ensures forall a :: a in r <==> a in arts && !IsHostSlot(a)
  {
    if arts == [] then []
    else (if IsHostSlot(arts[0]) then [] else [arts[0]]) + OtherArtifacts(arts[1..])
  }

  /** `artifacts.find(a => a.name === name)`. */
  function FindNamed(arts: seq<Artifact>, name: string): (r: Option<Artifact>)
    ensures r.Some? ==> r.value in arts && r.value.name == name
    ensures r.Some? ==> exists i :: 0 <= i < |arts| && arts[i] == r.value && forall j :: 0 <= j < i ==> arts[j].name != name
    ensures r.None? ==> forall a :: a in arts ==> a.name != name
  {
    if arts == [] then None
    else if arts[0].name == name then Some(arts[0])
    else FindNamed(arts[1..], name)
  }

  /** The source's "Source Host" artifact: the first one it has, otherwise
      a new one holding its host. */
  function SourceSlot(src: Event): (a: Artifact)
    ensures a.name == SourceHost
  {
    match FindNamed(src.artifacts, SourceHost)
    case Some(a) => a
    case None => Artifact(Hostname, SourceHost, OrEmpty(src.host), None)
  }

  /** `updatedSourceEvent`: the source with its host artifacts rebuilt and
      its target set. */
  function RewriteSource(src: Event, d: Destination, newId: string): (r: Event)
    ensures r.(artifacts := src.artifacts, lateralMovementTarget := src.lateralMovementTarget) == src
    ensures r.lateralMovementTarget == Some(newId)
    ensures r.artifacts == OtherArtifacts(src.artifacts) + [SourceSlot(src), HostArtifact(d, DestinationHost)]
  {
    src.(artifacts := OtherArtifacts(src.artifacts) + [SourceSlot(src), HostArtifact(d, DestinationHost)],
         lateralMovementTarget := Some(newId))
  }

  /** Number of artifacts carrying a name. */
  function CountNamed(arts: seq<Artifact>, name: string): (n: nat)
    ensures n <= |arts|
  {
    if arts == [] then 0
    else (if arts[0].name == name then 1 else 0) + CountNamed(arts[1..], name)
  }

  lemma {:induction false} CountNamedAppend(a: seq<Artifact>, b: seq<Artifact>, name: string)
    ensures CountNamed(a + b, name) == CountNamed(a, name) + CountNamed(b, name)
  {
    if a == [] {
      assert a + b == b;
    } else {
      assert (a + b)[0] == a[0];
      assert (a + b)[1..] == a[1..] + b;
      CountNamedAppend(a[1..], b, name);
    }
  }

  lemma {:induction false} CountNamedAbsent(a: seq<Artifact>, name: string)
    requires forall x :: x in a ==> x.name != name
    ensures CountNamed(a, name) == 0
  {
    if a != [] {
      assert forall x :: x in a[1..] ==> x in a;
      CountNamedAbsent(a[1..], name);
    }
  }

  /** After the rewrite the source has exactly one "Source Host" and one
      "Destination Host", however many it had before. */
  lemma RewriteHasOneOfEach(src: Event, d: Destination, newId: string)
    ensures CountNamed(RewriteSource(src, d, newId).artifacts, SourceHost) == 1
    ensures CountNamed(RewriteSource(src, d, newId).artifacts, DestinationHost) == 1
  {
    var others := OtherArtifacts(src.artifacts);
    var tail := [SourceSlot(src), HostArtifact(d, DestinationHost)];
    CountNamedAppend(others, tail, SourceHost);
    CountNamedAppend(others, tail, DestinationHost);
    CountNamedAbsent(others, SourceHost);
    CountNamedAbsent(others, DestinationHost);
    assert tail[1..][1..] == [];
  }

  lemma {:induction false} OtherArtifactsIdempotent(arts: seq<Artifact>)
    ensures OtherArtifacts(OtherArtifacts(arts)) == OtherArtifacts(arts)
  {
    if arts != [] {
      OtherArtifactsIdempotent(arts[1..]);
      var head := if IsHostSlot(arts[0]) then [] else [arts[0]];
      OtherArtifactsAppend(head, OtherArtifacts(arts[1..]));
      if head != [] {
        assert OtherArtifacts(head) == head by { assert head[1..] == []; }
      }
    }
  }

  lemma {:induction false} OtherArtifactsAppend(a: seq<Artifact>, b: seq<Artifact>)
    ensures OtherArtifacts(a + b) == OtherArtifacts(a) + OtherArtifacts(b)
  {
    if a == [] {
      assert a + b == b;
    } else {
      assert (a + b)[0] == a[0];
      assert (a + b)[1..] == a[1..] + b;
      OtherArtifactsAppend(a[1..], b);
    }
  }

  lemma {:induction false} FindNamedAppend(a: seq<Artifact>, b: seq<Artifact>, name: string)
    requires forall x :: x in a ==> x.name != name
    ensures FindNamed(a + b, name) == FindNamed(b, name)
  {
    if a == [] {
      assert a + b == b;
    } else {
      assert (a + b)[0] == a[0];
      assert (a + b)[1..] == a[1..] + b;
      assert forall x :: x in a[1..] ==> x in a;
      FindNamedAppend(a[1..], b, name);
    }
  }

  /** A rewritten source keeps the other artifacts of the original. */
  lemma RewriteKeepsOthers(src: Event, d: Destination, id: string)
    ensures OtherArtifacts(RewriteSource(src, d, id).artifacts) == OtherArtifacts(src.artifacts)
  {
    var tail := [SourceSlot(src), HostArtifact(d, DestinationHost)];
    OtherArtifactsAppend(OtherArtifacts(src.artifacts), tail);
    OtherArtifactsIdempotent(src.artifacts);
    assert OtherArtifacts(tail) == [] by {
      assert tail[1..][1..] == [];
    }
  }

  /** A rewritten source keeps the source host slot of the original. */
  lemma RewriteKeepsSlot(src: Event, d: Destination, id: string)
    ensures SourceSlot(RewriteSource(src, d, id)) == SourceSlot(src)
  {
    var tail := [SourceSlot(src), HostArtifact(d, DestinationHost)];
    FindNamedAppend(OtherArtifacts(src.artifacts), tail, SourceHost);
  }

  /** Moving on from the same source again replaces the destination and
      the target, and keeps the source host of the first move. */
  lemma RewriteTwice(src: Event, d1: Destination, id1: string, d2: Destination, id2: string)
    ensures RewriteSource(RewriteSource(src, d1, id1), d2, id2) == RewriteSource(src, d2, id2)
  {
    RewriteKeepsOthers(src, d1, id1);
    RewriteKeepsSlot(src, d1, id1);
  }

  // ---------------------------------------------------------------------
  // The state change.

  /** `handleLateralMovement(sourceEvent, destinationHost)`: every stored
      event with the source's id becomes the rewritten source (built from
      the event passed in), and the new "Initial Access" event is appended. */
  function Move(events: seq<Event>, src: Event, destination: string, freshId: string, nowIso: string): (r: seq<Event>)
    ensures |r| == |events| + 1
    ensures r[|events|] == InitialAccess(ParseDestination(destination), freshId, nowIso)
    ensures forall i :: 0 <= i < |events| && events[i].id != src.id ==> r[i] == events[i]
    ensures forall i :: 0 <= i < |events| && events[i].id == src.id ==>
      r[i] == RewriteSource(src, ParseDestination(destination), freshId)
  {
    var d := ParseDestination(destination);
    var rewritten := RewriteSource(src, d, freshId);
    seq(|events|, i requires 0 <= i < |events| => if events[i].id == src.id then rewritten else events[i])
      + [InitialAccess(d, freshId, nowIso)]
  }

  /** The move keeps every stored id in place and appends the fresh one. */
  lemma MoveIds(events: seq<Event>, src: Event, destination: string, freshId: string, nowIso: string)
    ensures forall i :: 0 <= i < |events| ==> Move(events, src, destination, freshId, nowIso)[i].id == events[i].id
    ensures Move(events, src, destination, freshId, nowIso)[|events|].id == freshId
  {
  }

  lemma MoveKeepsIdsUnique(events: seq<Event>, src: Event, destination: string, freshId: string, nowIso: string)
    requires UniqueIds(events) && !HasId(events, freshId)
    ensures UniqueIds(Move(events, src, destination, freshId, nowIso))
  {
    MoveIds(events, src, destination, freshId, nowIso);
  }

  /** With a fresh id the ids stay unique, the new event is found under it,
      and a stored source now points at it. */
  lemma MoveLinks(events: seq<Event>, src: Event, destination: string, freshId: string, nowIso: string)
    requires UniqueIds(events) && !HasId(events, freshId)
    ensures UniqueIds(Move(events, src, destination, freshId, nowIso))
    ensures Find(Move(events, src, destination, freshId, nowIso), freshId)
      == Some(InitialAccess(ParseDestination(destination), freshId, nowIso))
    ensures HasId(events, src.id) ==>
      Find(Move(events, src, destination, freshId, nowIso), src.id).value.lateralMovementTarget == Some(freshId)
  {
    var r := Move(events, src, destination, freshId, nowIso);
    MoveKeepsIdsUnique(events, src, destination, freshId, nowIso);
    MoveIds(events, src, destination, freshId, nowIso);
    FindUnique(r, |events|);
    if HasId(events, src.id) {
      var k :| 0 <= k < |events| && events[k].id == src.id;
      FindUnique(r, k);
    }
  }
}
