/** The markdown incident report (src/lib/report.ts). The report is built
    as a sequence of pieces, each one `markdown +=` of the source, and
    `Render` spells every piece out as its exact text. Date formatting, the
    clock and the timestamp sort key are parameters. */
module Report {
  import opened Wrappers
  import opened Js
  import opened Seqs
  import opened Events
  import opened ArtifactsPage

  // ---------------------------------------------------------------------
  // groupArtifacts: the page's fold, with the first name kept aside.

  datatype ReportItem = ReportItem(name: string, item: Item)
  datatype ReportGroup = ReportGroup(kind: ArtifactType, items: seq<ReportItem>)

  function StripItems(ris: seq<ReportItem>): (r: seq<Item>)
    ensures |r| == |ris| && forall k :: 0 <= k < |ris| ==> r[k] == ris[k].item
  {
    seq(|ris|, k requires 0 <= k < |ris| => ris[k].item)
  }

  function StripGroups(rgs: seq<ReportGroup>): (r: seq<Group>)
    ensures |r| == |rgs| && forall k :: 0 <= k < |rgs| ==> r[k] == Group(rgs[k].kind, StripItems(rgs[k].items))
  {
    seq(|rgs|, k requires 0 <= k < |rgs| => Group(rgs[k].kind, StripItems(rgs[k].items)))
  }

  function ReportInsertItem(ris: seq<ReportItem>, o: Sighting): seq<ReportItem> {
    match FindItem(StripItems(ris), o.art.value)
    case None => ris + [ReportItem(o.art.name, NewItem(o))]
    case Some(j) => ris[j := ris[j].(item := Touch(ris[j].item, o))]
  }

  function ReportInsert(rgs: seq<ReportGroup>, o: Sighting): seq<ReportGroup> {
    match FindGroup(StripGroups(rgs), o.art.kind)
    case None => rgs + [ReportGroup(o.art.kind, ReportInsertItem([], o))]
    case Some(i) => rgs[i := rgs[i].(items := ReportInsertItem(rgs[i].items, o))]
  }

  function ReportCollect(os: seq<Sighting>): seq<ReportGroup> {
    if os == [] then [] else ReportInsert(ReportCollect(os[..|os| - 1]), os[|os| - 1])
  }

  /** `groupArtifacts(events)`. */
  function GroupArtifacts(events: seq<Event>): seq<ReportGroup> {
    ReportCollect(Sightings(events))
  }

  /** Every item's `name` is the first of its `names`. */
  predicate NameIsFirst(ris: seq<ReportItem>) {
    forall k :: 0 <= k < |ris| ==> ris[k].item.names != [] && ris[k].name == ris[k].item.names[0]
  }

  lemma ItemStepAgrees(ris: seq<ReportItem>, o: Sighting)
    requires NameIsFirst(ris)
    ensures StripItems(ReportInsertItem(ris, o)) == InsertItem(StripItems(ris), o)
    ensures NameIsFirst(ReportInsertItem(ris, o))
  {
    var r := ReportInsertItem(ris, o);
    match FindItem(StripItems(ris), o.art.value)
    case None =>
      assert StripItems(r) == StripItems(ris) + [NewItem(o)];
    case Some(j) =>
      assert StripItems(r) == StripItems(ris)[j := Touch(ris[j].item, o)];
      assert Touch(ris[j].item, o).names[0] == ris[j].item.names[0];
  }

  lemma GroupStepAgrees(rgs: seq<ReportGroup>, o: Sighting)
    requires forall i :: 0 <= i < |rgs| ==> NameIsFirst(rgs[i].items)
    ensures StripGroups(ReportInsert(rgs, o)) == Insert(StripGroups(rgs), o)
    ensures forall i :: 0 <= i < |ReportInsert(rgs, o)| ==> NameIsFirst(ReportInsert(rgs, o)[i].items)
  {
    var r := ReportInsert(rgs, o);
    match FindGroup(StripGroups(rgs), o.art.kind)
    case None =>
      ItemStepAgrees([], o);
      assert StripItems([]) == [];
      assert StripGroups(r) == StripGroups(rgs) + [Group(o.art.kind, InsertItem([], o))];
    case Some(i) =>
      ItemStepAgrees(rgs[i].items, o);
      assert StripGroups(r) == StripGroups(rgs)[i := Group(rgs[i].kind, InsertItem(StripItems(rgs[i].items), o))];
  }

  lemma {:induction false} CollectAgrees(os: seq<Sighting>)
    ensures StripGroups(ReportCollect(os)) == Collect(os)
    ensures forall i :: 0 <= i < |ReportCollect(os)| ==> NameIsFirst(ReportCollect(os)[i].items)
  {
    if os != [] {
      var p := os[..|os| - 1];
      CollectAgrees(p);
      GroupStepAgrees(ReportCollect(p), os[|os| - 1]);
    }
  }

  /** The report groups the artifacts exactly as the artifacts page does,
      and the extra `name` of an item is the first name it was seen under. */
  lemma GroupArtifactsAgrees(events: seq<Event>)
    ensures StripGroups(GroupArtifacts(events)) == Aggregate(events)
    ensures forall i, k :: 0 <= i < |GroupArtifacts(events)| && 0 <= k < |GroupArtifacts(events)[i].items| ==>
      GroupArtifacts(events)[i].items[k].item.names != [] &&
      GroupArtifacts(events)[i].items[k].name == GroupArtifacts(events)[i].items[k].item.names[0]
  {
    CollectAgrees(Sightings(events));
  }

  // ---------------------------------------------------------------------
  // The stable sort of the timeline.

  predicate SortedBy(s: seq<Event>, time: string -> int) {
    forall i, j :: 0 <= i < j < |s| ==> time(s[i].timestamp) <= time(s[j].timestamp)
  }

  /** Puts `x` after every element whose time is not later than its own. */
  function InsertByTime(s: seq<Event>, x: Event, time: string -> int): (r: seq<Event>)
    requires SortedBy(s, time)
    ensures SortedBy(r, time)
    ensures multiset(r) == multiset(s) + multiset{x}
    ensures |r| == |s| + 1
  {
    if s == [] || time(s[|s| - 1].timestamp) <= time(x.timestamp) then s + [x]
    else
      var p := s[..|s| - 1];
      var last := s[|s| - 1];
      var q := InsertByTime(p, x, time);
      assert s == p + [last];
      assert forall k :: 0 <= k < |p| ==> time(p[k].timestamp) <= time(last.timestamp);
      TimesBounded(q, p, x, time(last.timestamp), time);
      q + [last]
  }

  /** A bound on the times of `p` and of `x` bounds any rearrangement of them. */
  lemma TimesBounded(q: seq<Event>, p: seq<Event>, x: Event, t: int, time: string -> int)
    requires multiset(q) == multiset(p) + multiset{x}
    requires time(x.timestamp) <= t
    requires forall k :: 0 <= k < |p| ==> time(p[k].timestamp) <= t
    ensures forall k :: 0 <= k < |q| ==> time(q[k].timestamp) <= t
  {
    forall k | 0 <= k < |q| ensures time(q[k].timestamp) <= t {
      assert q[k] in multiset(q);
      if q[k] != x {
        assert q[k] in p;
      }
    }
  }

  /** `[...events].sort((a, b) => time(a) - time(b))`: insertion sort, each
      element placed after the earlier ones with an equal time. */
  function SortByTime(s: seq<Event>, time: string -> int): (r: seq<Event>)
    ensures SortedBy(r, time)
    ensures multiset(r) == multiset(s)
    ensures |r| == |s|
  {
    if s == [] then []
    else
      assert s == s[..|s| - 1] + [s[|s| - 1]];
      InsertByTime(SortByTime(s[..|s| - 1], time), s[|s| - 1], time)
  }

  /** The events with a given time, in order. */
  function AtTime(s: seq<Event>, time: string -> int, t: int): seq<Event> {
    if s == [] then []
    else AtTime(s[..|s| - 1], time, t) + (if time(s[|s| - 1].timestamp) == t then [s[|s| - 1]] else [])
  }

  lemma {:induction false} InsertByTimeStable(s: seq<Event>, x: Event, time: string -> int, t: int)
    requires SortedBy(s, time)
    ensures AtTime(InsertByTime(s, x, time), time, t) == AtTime(s, time, t) + (if time(x.timestamp) == t then [x] else [])
  {
    var r := InsertByTime(s, x, time);
    if s == [] || time(s[|s| - 1].timestamp) <= time(x.timestamp) {
      assert r[..|r| - 1] == s;
    } else {
      var p := s[..|s| - 1];
      InsertByTimeStable(p, x, time, t);
      var q := InsertByTime(p, x, time);
      assert r == q + [s[|s| - 1]];
      assert r[..|r| - 1] == q;
      assert s[..|s| - 1] == p;
    }
  }

  /** The sort is stable: events with equal times keep their input order. */
  lemma {:induction false} SortStable(s: seq<Event>, time: string -> int, t: int)
    ensures AtTime(SortByTime(s, time), time, t) == AtTime(s, time, t)
  {
    if s != [] {
      var p := s[..|s| - 1];
      SortStable(p, time, t);
      InsertByTimeStable(SortByTime(p, time), s[|s| - 1], time, t);
    }
  }

  // ---------------------------------------------------------------------
  // Pieces of markdown.

  datatype Piece =
    | Title
    | GeneratedOn(when: string)
    | Section(name: string)
    | Summary(count: nat, first: string, last: string)
    | EventHeading(when: string, title: string)
    | Para(text: string)
    | Label(text: string)
    | Bullet(caption: string, value: string)
    | EndList
    | Fenced(caption: string, body: string)
    | Rule
    | GroupHeading(kind: ArtifactType)
    | ItemHeading(value: string)
    | Related(value: string)
    | ObservedIn(count: nat)
    | EventLine(when: string, title: string)

  /** One block of markdown. User text (titles, descriptions, queries,
      logs) is inserted as it is, without escaping. */
  function RenderPiece(p: Piece): string {
    match p
    case Title => "# Incident Response Report\n\n"
    case GeneratedOn(when) => "Generated on: " + when + "\n\n"
    case Section(name) => "## " + name + "\n\n"
    case Summary(n, first, last) =>
      "This report documents a security incident containing " + NatToString(n) + " events "
      + "spanning from " + first + " to " + last + ".\n\n"
    case EventHeading(when, title) => "### " + when + " - " + title + "\n\n"
    case Para(text) => text + "\n\n"
    case Label(text) => "**" + text + ":**\n"
    case Bullet(caption, value) => "- " + caption + ": " + value + "\n"
    case EndList => "\n"
    case Fenced(caption, body) => "**" + caption + ":**\n```\n" + body + "\n```\n\n"
    case Rule => "---\n\n"
    case GroupHeading(kind) => "### " + Capitalize(KindName(kind)) + " Artifacts\n\n"
    case ItemHeading(value) => "#### " + value + "\n"
    case Related(value) => "- Related: `" + value + "`\n"
    case ObservedIn(n) => "- Observed in " + NatToString(n) + " event" + (if n == 1 then "" else "s") + ":\n"
    case EventLine(when, title) => "  - " + when + " - " + title + "\n"
  }

  lemma PrefixOf(a: string, b: string)
    ensures a <= a + b
  {
    assert (a + b)[..|a|] == a;
  }

  /** Each heading piece opens with the markdown marker of its level. */
  lemma HeadingMarkers(p: Piece)
    ensures p.Title? ==> "# " <= RenderPiece(p)
    ensures p.Section? ==> "## " <= RenderPiece(p)
    ensures p.EventHeading? || p.GroupHeading? ==> "### " <= RenderPiece(p)
    ensures p.ItemHeading? ==> "#### " <= RenderPiece(p)
  {
    match p
    case Title =>
      PrefixOf("# ", "Incident Response Report\n\n");
    case Section(name) =>
      PrefixOf("## ", name + "\n\n");
    case EventHeading(when, title) =>
      PrefixOf("### ", when + " - " + title + "\n\n");
    case GroupHeading(kind) =>
      PrefixOf("### ", Capitalize(KindName(kind)) + " Artifacts\n\n");
    case ItemHeading(value) =>
      PrefixOf("#### ", value + "\n");
    case _ =>
  }

  /** User text is not escaped: a description line that starts with `## `
      renders as a second-level heading. The heading lemmas below are
      therefore about heading pieces, not about every `#` line of the text. */
  lemma DescriptionMayBeHeading()
    ensures "## " <= RenderPiece(Para("## X"))
  {
  }

  /** A raw log holding a line of three backticks closes its fence early:
      the fence opened for the log is closed right after the log's first line. */
  lemma RawLogMayCloseFence()
    ensures "**Raw Log:**\n```\na\n```\n" <= RenderPiece(Fenced("Raw Log", "a\n```\nb"))
  {
  }

  /** The markdown text of a report. */
  function Render(ps: seq<Piece>): string {
    if ps == [] then "" else RenderPiece(ps[0]) + Render(ps[1..])
  }

  lemma {:induction false} RenderAppend(a: seq<Piece>, b: seq<Piece>)
    ensures Render(a + b) == Render(a) + Render(b)
  {
    if a == [] {
      assert a + b == b;
    } else {
      assert (a + b)[0] == a[0];
      assert (a + b)[1..] == a[1..] + b;
      RenderAppend(a[1..], b);
    }
  }

  /** The item count line says "event" for one event and "events"
      otherwise. */
  lemma ObservedInPlural(n: nat)
    ensures var text := RenderPiece(ObservedIn(n));
      |text| >= 3 && (n == 1 <==> text[|text| - 3..] == "t:\n") && (n != 1 <==> text[|text| - 3..] == "s:\n")
  {
    var text := RenderPiece(ObservedIn(n));
    var front := "- Observed in " + NatToString(n) + " even";
    if n == 1 {
      assert text == front + "t:\n";
    } else {
      assert text == (front + "t") + "s:\n";
    }
  }

  /** The pieces of the kinds a property looks at, in order. */
  function Select(ps: seq<Piece>, f: Piece -> bool): (r: seq<Piece>)
    ensures forall k :: 0 <= k < |r| ==> f(r[k])
    ensures |r| <= |ps|
  {
    if ps == [] then [] else (if f(ps[0]) then [ps[0]] else []) + Select(ps[1..], f)
  }

  lemma {:induction false} SelectAppend(a: seq<Piece>, b: seq<Piece>, f: Piece -> bool)
    ensures Select(a + b, f) == Select(a, f) + Select(b, f)
  {
    if a == [] {
      assert a + b == b;
    } else {
      assert (a + b)[0] == a[0];
      assert (a + b)[1..] == a[1..] + b;
      SelectAppend(a[1..], b, f);
    }
  }

  lemma {:induction false} SelectNone(ps: seq<Piece>, f: Piece -> bool)
    requires forall k :: 0 <= k < |ps| ==> !f(ps[k])
    ensures Select(ps, f) == []
  {
    if ps != [] {
      SelectNone(ps[1..], f);
    }
  }

  lemma {:induction false} SelectAll(ps: seq<Piece>, f: Piece -> bool)
    requires forall k :: 0 <= k < |ps| ==> f(ps[k])
    ensures Select(ps, f) == ps
  {
    if ps != [] {
      SelectAll(ps[1..], f);
      assert [ps[0]] + ps[1..] == ps;
    }
  }

  predicate IsSection(p: Piece) { p.Section? }
  predicate IsEventHeading(p: Piece) { p.EventHeading? }
  predicate IsGroupHeading(p: Piece) { p.GroupHeading? }
  predicate IsItemHeading(p: Piece) { p.ItemHeading? }
  predicate IsEventLine(p: Piece) { p.EventLine? }

  // ---------------------------------------------------------------------
  // generateTimelineSection.

  /** The heading the timeline gives an event. */
  function HeadingOf(e: Event, fmt: string -> string): Piece {
    EventHeading(fmt(e.timestamp), e.title)
  }

  function DescriptionPieces(e: Event): seq<Piece> {
    if e.description != "" then [Para(e.description)] else []
  }

  function MitrePieces(e: Event): seq<Piece> {
    if Truthy(e.tactic) || Truthy(e.technique) then
      [Label("MITRE ATT&CK")]
      + (if Truthy(e.tactic) then [Bullet("Tactic", e.tactic.value)] else [])
      + (if Truthy(e.technique) then [Bullet("Technique", e.technique.value)] else [])
      + [EndList]
    else []
  }

  function ContextPieces(e: Event): seq<Piece> {
    if Truthy(e.host) || Truthy(e.user) || Truthy(e.process) then
      [Label("Context")]
      + (if Truthy(e.host) then [Bullet("Host", e.host.value)] else [])
      + (if Truthy(e.user) then [Bullet("User", e.user.value)] else [])
      + (if Truthy(e.process) then [Bullet("Process", e.process.value)] else [])
      + [EndList]
    else []
  }

  function FencedPieces(caption: string, text: Option<string>): seq<Piece> {
    if Truthy(text) then [Fenced(caption, text.value)] else []
  }

  /** Everything between an event's heading and its closing rule. */
  function EventBody(e: Event): seq<Piece> {
    DescriptionPieces(e) + MitrePieces(e) + ContextPieces(e)
    + FencedPieces("Search Query", e.searchQuery) + FencedPieces("Raw Log", e.rawLog)
  }

  /** The blocks written for one event. */
  function EventPieces(e: Event, fmt: string -> string): seq<Piece> {
    [HeadingOf(e, fmt)] + EventBody(e) + [Rule]
  }

  /** Pieces found inside an event's body. */
  predicate IsBodyPiece(p: Piece) {
    p.Para? || p.Label? || p.Bullet? || p.EndList? || p.Fenced?
  }

  predicate AllBody(s: seq<Piece>) {
    forall k :: 0 <= k < |s| ==> IsBodyPiece(s[k])
  }

  lemma BodyAppend(a: seq<Piece>, b: seq<Piece>)
    requires AllBody(a) && AllBody(b)
    ensures AllBody(a + b)
  {
    forall k | 0 <= k < |a + b| ensures IsBodyPiece((a + b)[k]) {
      if k >= |a| {
        assert (a + b)[k] == b[k - |a|];
      }
    }
  }

  lemma MitreBody(e: Event)
    ensures AllBody(MitrePieces(e))
  {
    if Truthy(e.tactic) || Truthy(e.technique) {
      var a: seq<Piece> := [Label("MITRE ATT&CK")];
      var b: seq<Piece> := if Truthy(e.tactic) then [Bullet("Tactic", e.tactic.value)] else [];
      var c: seq<Piece> := if Truthy(e.technique) then [Bullet("Technique", e.technique.value)] else [];
      BodyAppend(a, b);
      BodyAppend(a + b, c);
      BodyAppend(a + b + c, [EndList]);
    }
  }

  lemma ContextBody(e: Event)
    ensures AllBody(ContextPieces(e))
  {
    if Truthy(e.host) || Truthy(e.user) || Truthy(e.process) {
      var a: seq<Piece> := [Label("Context")];
      var b: seq<Piece> := if Truthy(e.host) then [Bullet("Host", e.host.value)] else [];
      var c: seq<Piece> := if Truthy(e.user) then [Bullet("User", e.user.value)] else [];
      var d: seq<Piece> := if Truthy(e.process) then [Bullet("Process", e.process.value)] else [];
      BodyAppend(a, b);
      BodyAppend(a + b, c);
      BodyAppend(a + b + c, d);
      BodyAppend(a + b + c + d, [EndList]);
    }
  }

  lemma EventBodyPieces(e: Event)
    ensures forall k :: 0 <= k < |EventBody(e)| ==> IsBodyPiece(EventBody(e)[k])
  {
    var d := DescriptionPieces(e);
    var m := MitrePieces(e);
    var c := ContextPieces(e);
    var q := FencedPieces("Search Query", e.searchQuery);
    var r := FencedPieces("Raw Log", e.rawLog);
    MitreBody(e);
    ContextBody(e);
    BodyAppend(d, m);
    BodyAppend(d + m, c);
    BodyAppend(d + m + c, q);
    BodyAppend(d + m + c + q, r);
  }

  lemma EventBodyMember(e: Event, p: Piece)
    requires p in EventBody(e)
    ensures IsBodyPiece(p)
  {
    EventBodyPieces(e);
    var k :| 0 <= k < |EventBody(e)| && EventBody(e)[k] == p;
  }

  /** An event gets a description paragraph iff its description is not
      empty. */
  lemma EventDescription(e: Event, fmt: string -> string)
    ensures Para(e.description) in EventPieces(e, fmt) <==> e.description != ""
  {
    var p := Para(e.description);
    assert p !in MitrePieces(e);
    assert p !in ContextPieces(e);
    assert p !in FencedPieces("Search Query", e.searchQuery);
    assert p !in FencedPieces("Raw Log", e.rawLog);
    assert p in EventPieces(e, fmt) <==> p in EventBody(e);
  }

  /** An event gets the MITRE block iff it has a tactic or a technique. */
  lemma EventMitre(e: Event, fmt: string -> string)
    ensures Label("MITRE ATT&CK") in EventPieces(e, fmt) <==> Truthy(e.tactic) || Truthy(e.technique)
  {
    var p := Label("MITRE ATT&CK");
    assert p !in DescriptionPieces(e);
    assert p !in ContextPieces(e);
    assert p !in FencedPieces("Search Query", e.searchQuery);
    assert p !in FencedPieces("Raw Log", e.rawLog);
    assert p in EventPieces(e, fmt) <==> p in EventBody(e);
  }

  /** An event gets the context block iff it has a host, user or process. */
  lemma EventContext(e: Event, fmt: string -> string)
    ensures Label("Context") in EventPieces(e, fmt) <==> Truthy(e.host) || Truthy(e.user) || Truthy(e.process)
  {
    assert Label("Context") !in MitrePieces(e);
  }

  /** An event gets a fenced search query iff it has one. */
  lemma EventSearchQuery(e: Event, fmt: string -> string)
    ensures (exists b :: Fenced("Search Query", b) in EventPieces(e, fmt)) <==> Truthy(e.searchQuery)
  {
    if Truthy(e.searchQuery) {
      assert Fenced("Search Query", e.searchQuery.value) in EventPieces(e, fmt);
    }
    forall b ensures Fenced("Search Query", b) !in MitrePieces(e) && Fenced("Search Query", b) !in ContextPieces(e) {
    }
  }

  /** An event gets a fenced raw log iff it has one. */
  lemma EventRawLog(e: Event, fmt: string -> string)
    ensures (exists b :: Fenced("Raw Log", b) in EventPieces(e, fmt)) <==> Truthy(e.rawLog)
  {
    if Truthy(e.rawLog) {
      assert Fenced("Raw Log", e.rawLog.value) in EventPieces(e, fmt);
    }
    forall b ensures Fenced("Raw Log", b) !in MitrePieces(e) && Fenced("Raw Log", b) !in ContextPieces(e) {
    }
  }

  /** An event's blocks hold exactly one event heading, its own, first, and
      end with a rule. */
  lemma EventShape(e: Event, fmt: string -> string)
    ensures Select(EventPieces(e, fmt), IsEventHeading) == [HeadingOf(e, fmt)]
    ensures Select(EventPieces(e, fmt), IsSection) == []
    ensures EventPieces(e, fmt)[|EventPieces(e, fmt)| - 1] == Rule
  {
    EventBodyPieces(e);
    SelectAppend([HeadingOf(e, fmt)] + EventBody(e), [Rule], IsEventHeading);
    SelectAppend([HeadingOf(e, fmt)], EventBody(e), IsEventHeading);
    SelectAppend([HeadingOf(e, fmt)] + EventBody(e), [Rule], IsSection);
    SelectAppend([HeadingOf(e, fmt)], EventBody(e), IsSection);
    SelectNone(EventBody(e), IsEventHeading);
    SelectNone(EventBody(e), IsSection);
  }

  /** The blocks of all events, in the given order. */
  function EventsPieces(es: seq<Event>, fmt: string -> string): seq<Piece> {
    if es == [] then [] else EventPieces(es[0], fmt) + EventsPieces(es[1..], fmt)
  }

  /** The headings of a list of events, in order. */
  function Headings(es: seq<Event>, fmt: string -> string): (r: seq<Piece>)
    ensures |r| == |es| && forall k :: 0 <= k < |es| ==> r[k] == HeadingOf(es[k], fmt)
  {
    if es == [] then [] else [HeadingOf(es[0], fmt)] + Headings(es[1..], fmt)
  }

  lemma {:induction false} EventsPiecesShape(es: seq<Event>, fmt: string -> string)
    ensures Select(EventsPieces(es, fmt), IsEventHeading) == Headings(es, fmt)
    ensures Select(EventsPieces(es, fmt), IsSection) == []
  {
    if es != [] {
      EventsPiecesShape(es[1..], fmt);
      EventShape(es[0], fmt);
      SelectAppend(EventPieces(es[0], fmt), EventsPieces(es[1..], fmt), IsEventHeading);
      SelectAppend(EventPieces(es[0], fmt), EventsPieces(es[1..], fmt), IsSection);
    }
  }

  /** `generateTimelineSection(events)`. */
  function TimelineSection(events: seq<Event>, fmt: string -> string, time: string -> int): seq<Piece> {
    [Section("Timeline of Events")] + EventsPieces(SortByTime(events, time), fmt)
  }

  lemma TimelineShape(events: seq<Event>, fmt: string -> string, time: string -> int)
    ensures Select(TimelineSection(events, fmt, time), IsSection) == [Section("Timeline of Events")]
    ensures Select(TimelineSection(events, fmt, time), IsEventHeading) == Headings(SortByTime(events, time), fmt)
  {
    var body := EventsPieces(SortByTime(events, time), fmt);
    EventsPiecesShape(SortByTime(events, time), fmt);
    SelectAppend([Section("Timeline of Events")], body, IsSection);
    SelectAppend([Section("Timeline of Events")], body, IsEventHeading);
  }

  // ---------------------------------------------------------------------
  // generateArtifactsSection.

  function EventLines(refs: seq<EventRef>, fmt: string -> string): (r: seq<Piece>)
    ensures |r| == |refs|
    ensures forall k :: 0 <= k < |refs| ==> r[k] == EventLine(fmt(refs[k].timestamp), refs[k].title)
  {
    if refs == [] then [] else [EventLine(fmt(refs[0].timestamp), refs[0].title)] + EventLines(refs[1..], fmt)
  }

  function RelatedPieces(it: Item): seq<Piece> {
    if Truthy(it.linkedValue) then [Related(it.linkedValue.value)] else []
  }

  /** The lines under an item's heading before its event list. */
  function ItemBody(it: Item): seq<Piece> {
    [Bullet("Observed as", Join(it.names, ", "))] + RelatedPieces(it) + [ObservedIn(|it.events|)]
  }

  /** The blocks written for one item. */
  function ItemPieces(ri: ReportItem, fmt: string -> string): seq<Piece> {
    [ItemHeading(ri.item.value)] + ItemBody(ri.item) + EventLines(ri.item.events, fmt) + [EndList]
  }

  /** Pieces found below an item heading. */
  predicate IsItemDetail(p: Piece) {
    p.Bullet? || p.Related? || p.ObservedIn? || p.EventLine? || p.EndList?
  }

  lemma ItemDetails(ri: ReportItem, fmt: string -> string)
    ensures var rest := ItemBody(ri.item) + EventLines(ri.item.events, fmt) + [EndList];
      ItemPieces(ri, fmt) == [ItemHeading(ri.item.value)] + rest
      && forall k :: 0 <= k < |rest| ==> IsItemDetail(rest[k])
  {
    var body := ItemBody(ri.item);
    var lines := EventLines(ri.item.events, fmt);
    assert AllDetails(body) by {
      assert body == [body[0]] + RelatedPieces(ri.item) + [body[|body| - 1]];
    }
    DetailsAppend(body, lines);
    DetailsAppend(body + lines, [EndList]);
  }

  predicate AllDetails(s: seq<Piece>) {
    forall k :: 0 <= k < |s| ==> IsItemDetail(s[k])
  }

  lemma DetailsAppend(a: seq<Piece>, b: seq<Piece>)
    requires AllDetails(a) && AllDetails(b)
    ensures AllDetails(a + b)
  {
    forall k | 0 <= k < |a + b| ensures IsItemDetail((a + b)[k]) {
      if k >= |a| {
        assert (a + b)[k] == b[k - |a|];
      }
    }
  }

  /** An item gets a "Related" line iff it has a linked value. */
  lemma ItemRelated(ri: ReportItem, fmt: string -> string)
    ensures (exists v :: Related(v) in ItemPieces(ri, fmt)) <==> Truthy(ri.item.linkedValue)
  {
    var ps := ItemPieces(ri, fmt);
    var lines := EventLines(ri.item.events, fmt);
    if Truthy(ri.item.linkedValue) {
      assert Related(ri.item.linkedValue.value) in ps;
    }
    assert forall k :: 0 <= k < |lines| ==> !lines[k].Related?;
  }

  /** An item opens with its heading and holds no other heading. */
  lemma ItemShape(ri: ReportItem, fmt: string -> string)
    ensures Select(ItemPieces(ri, fmt), IsItemHeading) == [ItemHeading(ri.item.value)]
    ensures Select(ItemPieces(ri, fmt), IsSection) == []
    ensures Select(ItemPieces(ri, fmt), IsGroupHeading) == []
    ensures Select(ItemPieces(ri, fmt), IsEventHeading) == []
  {
    var head := [ItemHeading(ri.item.value)];
    var rest := ItemBody(ri.item) + EventLines(ri.item.events, fmt) + [EndList];
    ItemDetails(ri, fmt);
    SelectAppend(head, rest, IsItemHeading);
    SelectNone(rest, IsItemHeading);
    SelectAppend(head, rest, IsSection);
    SelectNone(rest, IsSection);
    SelectAppend(head, rest, IsGroupHeading);
    SelectNone(rest, IsGroupHeading);
    SelectAppend(head, rest, IsEventHeading);
    SelectNone(rest, IsEventHeading);
  }

  /** An item states its number of events and lists every event once, on
      one line each, in order. */
  lemma ItemEventLines(ri: ReportItem, fmt: string -> string)
    ensures Select(ItemPieces(ri, fmt), IsEventLine) == EventLines(ri.item.events, fmt)
    ensures |Select(ItemPieces(ri, fmt), IsEventLine)| == |ri.item.events|
  {
    var front := [ItemHeading(ri.item.value)] + ItemBody(ri.item);
    var lines := EventLines(ri.item.events, fmt);
    assert forall k :: 0 <= k < |front| ==> !IsEventLine(front[k]);
    SelectNone(front, IsEventLine);
    SelectNone([EndList], IsEventLine);
    SelectAll(lines, IsEventLine);
    OnlyMiddle(front, lines, [EndList], IsEventLine);
  }

  /** The count line gives the number of events the item was seen in. */
  lemma ItemObservedIn(ri: ReportItem, fmt: string -> string)
    ensures ObservedIn(|ri.item.events|) in ItemPieces(ri, fmt)
  {
    assert ObservedIn(|ri.item.events|) in ItemBody(ri.item);
  }

  function ItemsPieces(ris: seq<ReportItem>, fmt: string -> string): seq<Piece> {
    if ris == [] then [] else ItemPieces(ris[0], fmt) + ItemsPieces(ris[1..], fmt)
  }

  function GroupPieces(g: ReportGroup, fmt: string -> string): seq<Piece> {
    [GroupHeading(g.kind)] + ItemsPieces(g.items, fmt)
  }

  function GroupsPieces(gs: seq<ReportGroup>, fmt: string -> string): seq<Piece> {
    if gs == [] then [] else GroupPieces(gs[0], fmt) + GroupsPieces(gs[1..], fmt)
  }

  /** `generateArtifactsSection(groups)`. */
  function ArtifactsSection(gs: seq<ReportGroup>, fmt: string -> string): seq<Piece> {
    [Section("Artifacts & Indicators of Compromise")] + GroupsPieces(gs, fmt)
  }

  function ItemHeadings(ris: seq<ReportItem>): (r: seq<Piece>)
    ensures |r| == |ris| && forall k :: 0 <= k < |ris| ==> r[k] == ItemHeading(ris[k].item.value)
  {
    if ris == [] then [] else [ItemHeading(ris[0].item.value)] + ItemHeadings(ris[1..])
  }

  function GroupHeadings(gs: seq<ReportGroup>): (r: seq<Piece>)
    ensures |r| == |gs| && forall k :: 0 <= k < |gs| ==> r[k] == GroupHeading(gs[k].kind)
  {
    if gs == [] then [] else [GroupHeading(gs[0].kind)] + GroupHeadings(gs[1..])
  }

  lemma {:induction false} ItemsPiecesShape(ris: seq<ReportItem>, fmt: string -> string)
    ensures Select(ItemsPieces(ris, fmt), IsItemHeading) == ItemHeadings(ris)
    ensures Select(ItemsPieces(ris, fmt), IsSection) == []
    ensures Select(ItemsPieces(ris, fmt), IsGroupHeading) == []
    ensures Select(ItemsPieces(ris, fmt), IsEventHeading) == []
  {
    if ris != [] {
      ItemsPiecesShape(ris[1..], fmt);
      ItemShape(ris[0], fmt);
      var a := ItemPieces(ris[0], fmt);
      var b := ItemsPieces(ris[1..], fmt);
      SelectAppend(a, b, IsItemHeading);
      SelectAppend(a, b, IsSection);
      SelectAppend(a, b, IsGroupHeading);
      SelectAppend(a, b, IsEventHeading);
    }
  }

  /** One heading per group, in order, each followed by one heading per
      item of the group; no section or event heading in between. */
  lemma {:induction false} GroupsPiecesShape(gs: seq<ReportGroup>, fmt: string -> string)
    ensures Select(GroupsPieces(gs, fmt), IsGroupHeading) == GroupHeadings(gs)
    ensures Select(GroupsPieces(gs, fmt), IsSection) == []
    ensures Select(GroupsPieces(gs, fmt), IsEventHeading) == []
  {
    if gs != [] {
      GroupsPiecesShape(gs[1..], fmt);
      GroupShape(gs[0], fmt);
      var a := GroupPieces(gs[0], fmt);
      var b := GroupsPieces(gs[1..], fmt);
      SelectAppend(a, b, IsGroupHeading);
      SelectAppend(a, b, IsSection);
      SelectAppend(a, b, IsEventHeading);
    }
  }

  lemma GroupShape(g: ReportGroup, fmt: string -> string)
    ensures Select(GroupPieces(g, fmt), IsGroupHeading) == [GroupHeading(g.kind)]
    ensures Select(GroupPieces(g, fmt), IsItemHeading) == ItemHeadings(g.items)
    ensures Select(GroupPieces(g, fmt), IsSection) == []
    ensures Select(GroupPieces(g, fmt), IsEventHeading) == []
  {
    var head := [GroupHeading(g.kind)];
    var items := ItemsPieces(g.items, fmt);
    ItemsPiecesShape(g.items, fmt);
    SelectAppend(head, items, IsGroupHeading);
    SelectAppend(head, items, IsItemHeading);
    SelectAppend(head, items, IsSection);
    SelectAppend(head, items, IsEventHeading);
  }

  lemma ArtifactsShape(gs: seq<ReportGroup>, fmt: string -> string)
    ensures Select(ArtifactsSection(gs, fmt), IsSection) == [Section("Artifacts & Indicators of Compromise")]
    ensures Select(ArtifactsSection(gs, fmt), IsEventHeading) == []
    ensures Select(ArtifactsSection(gs, fmt), IsGroupHeading) == GroupHeadings(gs)
  {
    var head := [Section("Artifacts & Indicators of Compromise")];
    var body := GroupsPieces(gs, fmt);
    GroupsPiecesShape(gs, fmt);
    SelectAppend(head, body, IsSection);
    SelectAppend(head, body, IsEventHeading);
    SelectAppend(head, body, IsGroupHeading);
  }

  // ---------------------------------------------------------------------
  // generateReport.

  /** The title, the time of generation, and the executive summary: the
      number of events and the span from the first to the last event of
      the list as given (not as sorted). */
  function Opening(events: seq<Event>, generatedOn: string, fmt: string -> string): (r: seq<Piece>)
    requires events != []
    ensures |r| == 4
  {
    [Title, GeneratedOn(generatedOn), Section("Executive Summary"),
     Summary(|events|, fmt(events[0].timestamp), fmt(events[|events| - 1].timestamp))]
  }

  lemma OpeningShape(events: seq<Event>, generatedOn: string, fmt: string -> string)
    requires events != []
    ensures Select(Opening(events, generatedOn, fmt), IsSection) == [Section("Executive Summary")]
    ensures Select(Opening(events, generatedOn, fmt), IsEventHeading) == []
    ensures Select(Opening(events, generatedOn, fmt), IsGroupHeading) == []
  {
    var o := Opening(events, generatedOn, fmt);
    assert o == [Title, GeneratedOn(generatedOn)] + [Section("Executive Summary")] + [o[3]];
    SelectAppend([Title, GeneratedOn(generatedOn)] + [Section("Executive Summary")], [o[3]], IsSection);
    SelectAppend([Title, GeneratedOn(generatedOn)], [Section("Executive Summary")], IsSection);
    SelectNone([Title, GeneratedOn(generatedOn)], IsSection);
    SelectNone([o[3]], IsSection);
    SelectNone(o, IsEventHeading);
    SelectNone(o, IsGroupHeading);
  }

  /** `generateReport(events)`, given the formatted current time, the
      timestamp formatter and the sort key. Reading `events[0]` of an empty
      list fails, so an empty timeline gives no report. */
  function GenerateReport(events: seq<Event>, generatedOn: string, fmt: string -> string, time: string -> int): (r: Result<seq<Piece>, string>)
    ensures r.Failure? <==> events == []
    ensures r.Success? ==> events != [] && Opening(events, generatedOn, fmt) <= r.value
  {
    if events == [] then Failure("TypeError: events[0] is undefined")
    else
      Success(Opening(events, generatedOn, fmt)
              + TimelineSection(events, fmt, time)
              + ArtifactsSection(GroupArtifacts(events), fmt))
  }

  lemma ReportParts(events: seq<Event>, generatedOn: string, fmt: string -> string, time: string -> int)
    requires events != []
    ensures GenerateReport(events, generatedOn, fmt, time).value ==
      Opening(events, generatedOn, fmt) + TimelineSection(events, fmt, time) + ArtifactsSection(GroupArtifacts(events), fmt)
  {
  }

  lemma SelectThree(a: seq<Piece>, b: seq<Piece>, c: seq<Piece>, f: Piece -> bool)
    ensures Select(a + b + c, f) == Select(a, f) + Select(b, f) + Select(c, f)
  {
    SelectAppend(a + b, c, f);
    SelectAppend(a, b, f);
  }

  lemma OnlyMiddle(a: seq<Piece>, b: seq<Piece>, c: seq<Piece>, f: Piece -> bool)
    requires Select(a, f) == [] && Select(c, f) == []
    ensures Select(a + b + c, f) == Select(b, f)
  {
    SelectThree(a, b, c, f);
  }

  /** The report's second-level headings are Executive Summary, Timeline of
      Events and Artifacts & Indicators of Compromise, in that order. */
  lemma ReportSections(events: seq<Event>, generatedOn: string, fmt: string -> string, time: string -> int)
    requires events != []
    ensures Select(GenerateReport(events, generatedOn, fmt, time).value, IsSection) ==
      [Section("Executive Summary"), Section("Timeline of Events"), Section("Artifacts & Indicators of Compromise")]
  {
    var o := Opening(events, generatedOn, fmt);
    var t := TimelineSection(events, fmt, time);
    var a := ArtifactsSection(GroupArtifacts(events), fmt);
    ReportParts(events, generatedOn, fmt, time);
    OpeningShape(events, generatedOn, fmt);
    TimelineShape(events, fmt, time);
    ArtifactsShape(GroupArtifacts(events), fmt);
    OneEach(o, t, a, IsSection);
  }

  lemma OneEach(a: seq<Piece>, b: seq<Piece>, c: seq<Piece>, f: Piece -> bool)
    requires |Select(a, f)| == 1 && |Select(b, f)| == 1 && |Select(c, f)| == 1
    ensures Select(a + b + c, f) == [Select(a, f)[0], Select(b, f)[0], Select(c, f)[0]]
  {
    SelectThree(a, b, c, f);
  }

  /** The artifact group headings are those of `groupArtifacts`, in order. */
  lemma ReportGroupHeadings(events: seq<Event>, generatedOn: string, fmt: string -> string, time: string -> int)
    requires events != []
    ensures Select(GenerateReport(events, generatedOn, fmt, time).value, IsGroupHeading) ==
      GroupHeadings(GroupArtifacts(events))
  {
    ReportParts(events, generatedOn, fmt, time);
    OpeningShape(events, generatedOn, fmt);
    TimelineNoGroupHeading(events, fmt, time);
    ArtifactsShape(GroupArtifacts(events), fmt);
    SelectThree(Opening(events, generatedOn, fmt), TimelineSection(events, fmt, time),
      ArtifactsSection(GroupArtifacts(events), fmt), IsGroupHeading);
  }

  lemma TimelineNoGroupHeading(events: seq<Event>, fmt: string -> string, time: string -> int)
    ensures Select(TimelineSection(events, fmt, time), IsGroupHeading) == []
  {
    var ps := TimelineSection(events, fmt, time);
    forall k | 0 <= k < |ps| ensures !IsGroupHeading(ps[k]) {
      if k > 0 {
        EventsNoGroupHeading(SortByTime(events, time), fmt, ps[k]);
        assert ps[k] in EventsPieces(SortByTime(events, time), fmt);
      }
    }
    SelectNone(ps, IsGroupHeading);
  }

  lemma {:induction false} EventsNoGroupHeading(es: seq<Event>, fmt: string -> string, p: Piece)
    ensures p in EventsPieces(es, fmt) ==> !p.GroupHeading?
  {
    if es != [] {
      EventsNoGroupHeading(es[1..], fmt, p);
      if p in EventBody(es[0]) {
        EventBodyMember(es[0], p);
      }
    }
  }

  /** The report has exactly one event heading per event; the k-th is that
      of the k-th event in time order (see SortByTime and SortStable for
      that order). */
  lemma ReportTimeline(events: seq<Event>, generatedOn: string, fmt: string -> string, time: string -> int)
    requires events != []
    ensures Select(GenerateReport(events, generatedOn, fmt, time).value, IsEventHeading) == Headings(SortByTime(events, time), fmt)
  {
    var a := Opening(events, generatedOn, fmt);
    var b := TimelineSection(events, fmt, time);
    var c := ArtifactsSection(GroupArtifacts(events), fmt);
    ReportParts(events, generatedOn, fmt, time);
    OpeningShape(events, generatedOn, fmt);
    ArtifactsShape(GroupArtifacts(events), fmt);
    TimelineShape(events, fmt, time);
    OnlyMiddle(a, b, c, IsEventHeading);
  }

  /** The report opens with the title, the time of generation and the
      executive summary, which gives the number of events and the formatted
      timestamps of the first and last events of the list as given. */
  lemma ReportOpening(events: seq<Event>, generatedOn: string, fmt: string -> string, time: string -> int)
    requires events != []
    ensures var ps := GenerateReport(events, generatedOn, fmt, time).value;
      |ps| >= 4 && ps[0] == Title && ps[1] == GeneratedOn(generatedOn) && ps[2] == Section("Executive Summary")
      && ps[3] == Summary(|events|, fmt(events[0].timestamp), fmt(events[|events| - 1].timestamp))
  {
    OpeningPrefix(GenerateReport(events, generatedOn, fmt, time).value, events, generatedOn, fmt);
  }

  lemma OpeningPrefix(ps: seq<Piece>, events: seq<Event>, generatedOn: string, fmt: string -> string)
    requires events != [] && Opening(events, generatedOn, fmt) <= ps
    ensures |ps| >= 4 && ps[0] == Title && ps[1] == GeneratedOn(generatedOn) && ps[2] == Section("Executive Summary")
      && ps[3] == Summary(|events|, fmt(events[0].timestamp), fmt(events[|events| - 1].timestamp))
  {
    assert ps[..4] == Opening(events, generatedOn, fmt);
  }

  /** The report text starts with its title. */
  lemma ReportStartsWithTitle(events: seq<Event>, generatedOn: string, fmt: string -> string, time: string -> int)
    requires events != []
    ensures "# Incident Response Report\n\n" <= Render(GenerateReport(events, generatedOn, fmt, time).value)
  {
    var ps := GenerateReport(events, generatedOn, fmt, time).value;
    OpeningPrefix(ps, events, generatedOn, fmt);
    RenderFirst(ps);
  }

  lemma RenderFirst(ps: seq<Piece>)
    requires ps != []
    ensures RenderPiece(ps[0]) <= Render(ps)
  {
  }
}
