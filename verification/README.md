# ThreatTimeline in Dafny

A model of the core of ThreatTimeline, a single-page tool for recording a security
incident as a timeline of events. Events form a tree through `parentId`. They carry
typed artifacts (hosts, IPs, hashes…) and can be linked by lateral movement. The tool
shows the timeline, a graph view and an artifact inventory, and it exports a markdown
report.

The model covers:

- **the page's event store** (`src/pages/Index.tsx`):
  - adding an event;
  - the field merge on update;
  - the cascading delete through the parent tree, including what happens on a cycle;
  - the lateral-movement operation: the destination regex, the rewrite of the source
    event and the new "Initial Access" event;
- **the artifacts page** (`src/pages/artifacts.tsx`): the grouping fold, the search
  filter and the tab choice;
- **the markdown report** (`src/lib/report.ts`): `groupArtifacts`, the stable sort by
  time, and the timeline, artifacts and summary sections;
- **the timeline panel's dialog and collapse state** (`src/components/Timeline.tsx`);
- **the event form** (`EventForm.tsx`): timestamp normalisation, the parent picker and
  the single-field edits;
- **the event details pane** (`EventDetails.tsx`): editor height, query and raw-log
  edits;
- **the graph view** (`src/components/Visualization.tsx`): saved-position overlay,
  position map, root flag;
- **`getEventColor`** (`src/lib/utils.ts`).

Each source file has its own module, except `src/pages/Index.tsx`, which is split by
concern into `Events` (the records), `GraphModel` (add and update), `CascadeDelete` and
`LateralMovement`. Three support modules sit beside them:

- `Wrappers`: `Option`, `Result`;
- `Js`: JavaScript truthiness, `||` on optional strings, `slice`, `includes`, `join`,
  number printing;
- `Seqs`: first-seen de-duplication, pigeonhole.

How JavaScript is modelled:

- Optional properties are `Option`s. `None` is an absent key and `Some("")` an empty
  string, so truthiness (`Truthy`) is written out.
- React state becomes explicit values threaded through pure functions. Callbacks become
  the page operations they are wired to.
- The clock, uuids, `Date` parsing and formatting, `toLowerCase` and the graph layout
  are parameters.

The properties proved include:

- **Delete.** In the model, which has no engine stack limit, delete removes exactly the
  event and its parent-tree descendants and keeps everything else in order whenever no
  cycle hangs below the event, whatever cycles the rest of the store holds. When a cycle
  hangs below the event it changes nothing. That is the caught stack overflow. The two
  cases cover every store.
- **Artifacts.** The artifacts fold equals a declarative grouping: one group per type
  in first-seen order, one item per distinct value in first-seen order, with names and
  event ids each listed once. The report groups artifacts exactly as the page does.
- **Report.** The report's heading pieces are fixed by the event list: one event
  heading piece per event, in stable ascending-time order, and the three section
  pieces in order. User text is inserted unescaped, so these are statements about the
  heading pieces, not about every `#` line of the rendered text.
- **Lateral movement.** The move leaves exactly one "Source Host" and one
  "Destination Host" on the source. Rewriting the source twice equals rewriting it once
  with the last destination and id. Each move still adds its own "Initial Access" event
  to the store.
- **Round trips and idempotence.** These cover collapse toggling, the parent picker,
  timestamp display, the position map and the tab effect.

## Behaviour of the code worth knowing

- **Cycles in delete.** The walk that collects descendants is unguarded recursion
  (`src/pages/Index.tsx:290-309`). A cycle below the deleted event overflows the stack,
  the catch returns the list unchanged, and the whole delete is a no-op.
- **Summary span.** The executive summary names the timestamps of the first and last
  events of the list as it is passed in, not of the time-sorted list
  (`src/lib/report.ts:160`).
- **Empty timeline.** On an empty event list the report reads `events[0].timestamp` and
  throws a `TypeError` (`src/lib/report.ts:160`).
- **Picking a parent.** The parent picker only leaves out the event itself
  (`src/components/timeline/event-dialog/EventForm.tsx:143-145`). Choosing a descendant
  closes a cycle, and the cycle blocks later deletes (`EventForm.PickChildBlocksDelete`).
- **Adding from the timeline panel.** The panel looks the new id up in the event list it
  was rendered with (`src/components/Timeline.tsx:70-79`), so the dialog never opens on
  the new event (`TimelinePanel.AddNeverOpensDialog`).

## Model

| member | source | states |
|---|---|---|
| GraphModel.AddEvent | src/pages/Index.tsx:186-202 | the store grows by one event at the end, everything before it unchanged; the new event has the fresh id, empty title, description and artifacts, the given parent, and the current time cut to 16 characters; every other optional key (tactic, technique, order, query, log, file, host, user, process, hash, network details, lateral-movement fields, saved view) is absent; the id is returned |
| GraphModel.AddKeepsIdsUnique | src/pages/Index.tsx:186-202 | a fresh id keeps the store's ids unique |
| GraphModel.Merge | src/pages/Index.tsx:239-255 | the id is the incoming one; each spread key takes a present incoming value, even `""`, and an absent key keeps the stored value; each `||` key takes a truthy incoming value and otherwise keeps exactly the stored one, so a stored non-empty value is never cleared; a stored parent is never removed; any present artifact array replaces the stored one, even an empty one |
| GraphModel.UpdateEvent | src/pages/Index.tsx:228-261 | same length; events with another id unchanged; events with the incoming id merged; an unknown id changes nothing |
| GraphModel.MergeEmptyPatch | src/pages/Index.tsx:239-255 | an update naming only the id leaves the event as it was |
| GraphModel.MergeIdempotent | src/pages/Index.tsx:239-255 | applying the same update twice equals applying it once |
| GraphModel.MergeFullEvent | src/pages/Index.tsx:236-255 | saving a full event stores exactly that event iff it clears no key an update cannot clear (absent optional key, or an emptied `||` field) |
| GraphModel.MergeKeepsAll | src/pages/Index.tsx:236-255 | the "if" half: without such a key, the stored event becomes the saved one |
| GraphModel.MergeLosesField | src/pages/Index.tsx:236-255 | the "only if" half: with such a key, the stored event differs from the saved one |
| GraphModel.SpreadStoresEmptyString | src/pages/Index.tsx:239-241 | an empty incoming title or description does overwrite, unlike the `||` keys |
| GraphModel.UpdateAfterAdd | src/pages/Index.tsx:186-261 | updating the event just added changes only the last element |
| CascadeDelete.ChildrenMember | src/pages/Index.tsx:291 | the children of an id are exactly the events whose parent link names it |
| CascadeDelete.FilterOutMember | src/pages/Index.tsx:303 | an event survives the filter iff it was present and its id is not in the delete list |
| CascadeDelete.DeleteEvent | src/pages/Index.tsx:281-310 | the result is no longer than the store and holds only events of the store |
| CascadeDelete.DeleteNoCycleBelow | src/pages/Index.tsx:290-305 | when no event whose parent chain reaches the id lies on a cycle (cycles elsewhere allowed), the result is the store, in order, without the id and every event whose parent chain reaches it |
| CascadeDelete.DeleteNoCycleBelowMember | src/pages/Index.tsx:290-305 | when no cycle hangs below the id, an event survives iff it is neither the deleted id nor below it in the parent tree |
| CascadeDelete.DeleteOnCycle | src/pages/Index.tsx:290-309 | when a parent cycle hangs below the id, the recursion overflows, the error is caught and the store is returned unchanged |
| CascadeDelete.AddThenDelete | src/pages/Index.tsx:186-305 | deleting an event just added that nothing names as parent restores the store |
| CascadeDelete.WalkNone | src/pages/Index.tsx:290-296 | the descendant recursion with n levels fails iff some parent chain of n links ends at the id |
| CascadeDelete.WalkSomeSound | src/pages/Index.tsx:290-296 | every id the recursion returns belongs to an event whose parent chain reaches the deleted id in fewer links than the depth bound |
| CascadeDelete.WalkSomeComplete | src/pages/Index.tsx:290-296 | every event whose parent chain reaches the id within the bound is returned |
| CascadeDelete.NoLongChainsBelow | src/pages/Index.tsx:290-296 | when no cycle hangs below the id, no parent chain into it is longer than the number of events, so the recursion ends |
| LateralMovement.SpaceRun | src/pages/Index.tsx:329 | the `\s*` run at a position: bounded by the string, all whitespace, stopped by a non-space |
| LateralMovement.FindSplitFirstFrom | src/pages/Index.tsx:329 | the lazy `(.*?)` picks the shortest hostname for which the rest of the pattern matches, and finds none exactly when no split exists |
| LateralMovement.ParseDestination | src/pages/Index.tsx:329-336 | with no IP found, the whole text is the hostname |
| LateralMovement.ParseDestinationMatches | src/pages/Index.tsx:329-336 | an IP is found iff the regex matches; on a match the hostname and IP are the groups of the leftmost (lazy) split |
| LateralMovement.ParseSingleLine | src/pages/Index.tsx:329-336 | on one-line input ending in `)` and containing `(`, the hostname is the text before the first `(` less trailing spaces and the IP is between that `(` and the final `)`; otherwise there is no IP |
| LateralMovement.ParseHostAndIp | src/pages/Index.tsx:329-336 | `"host (ip)"` parses back into host and ip |
| LateralMovement.Label | src/pages/Index.tsx:342 | `destHostname \|\| destIP`: the hostname when non-empty, otherwise the IP |
| LateralMovement.LinkedIp | src/pages/Index.tsx:351 | the IP is linked only when both hostname and IP are non-empty |
| LateralMovement.InitialAccess | src/pages/Index.tsx:339-355 | the new event: fresh id, current time cut to 16 characters, "Initial Access on …" title, empty description, tactic and technique, no parent, host, one "Source Host" artifact; every other optional key (order, query, log, file, user, process, hash, network details, lateral-movement fields, saved view) is absent |
| LateralMovement.OtherArtifacts | src/pages/Index.tsx:361 | keeps exactly the artifacts not named "Source Host" or "Destination Host", in order |
| LateralMovement.FindNamed | src/pages/Index.tsx:362 | an artifact with the name that no earlier artifact shares, so the first one; none when no artifact has it |
| LateralMovement.RewriteSource | src/pages/Index.tsx:358-375 | only artifacts and target change; the target is the new id; the artifacts are the others, then the old or a new "Source Host", then the new "Destination Host" |
| LateralMovement.RewriteHasOneOfEach | src/pages/Index.tsx:358-375 | after the rewrite the source has exactly one "Source Host" and one "Destination Host" |
| LateralMovement.RewriteTwice | src/pages/Index.tsx:358-375 | rewriting twice equals rewriting once with the second destination and id |
| LateralMovement.Move | src/pages/Index.tsx:380-389 | the store grows by the new event at the end; events with the source's id become the rewritten source; all others are unchanged |
| LateralMovement.MoveLinks | src/pages/Index.tsx:339-389 | with a fresh id ids stay unique, the new event is found under it, and a stored source points at it |
| ArtifactsPage.SightingsMember | src/pages/artifacts.tsx:42-43 | the walk visits exactly the artifacts of the events |
| ArtifactsPage.FindItem | src/pages/artifacts.tsx:51-53 | the position of the first item with the value, or none when no item has it |
| ArtifactsPage.FindGroup | src/pages/artifacts.tsx:44 | the position of the group of the type, or none when there is none |
| ArtifactsPage.ItemsStep | src/pages/artifacts.tsx:51-77 | one step of the fold on a group's items matches the reference grouping of one more sighting |
| ArtifactsPage.GroupsStep | src/pages/artifacts.tsx:44-77 | one step of the fold on the groups matches the reference grouping of one more sighting |
| ArtifactsPage.CollectIsReference | src/pages/artifacts.tsx:42-79 | the fold over all sightings equals the reference grouping |
| ArtifactsPage.AggregateIsReference | src/pages/artifacts.tsx:39-93 | the groups (before search): one per type in first-seen order, one item per distinct value in first-seen order, with first linked value, names and event references |
| ArtifactsPage.AggregateShape | src/pages/artifacts.tsx:39-79 | types are distinct, no group is empty, values within a group are distinct |
| ArtifactsPage.AggregateItem | src/pages/artifacts.tsx:51-77 | an item has at least one name and one event; its names are exactly the names its value was seen under, each once; its events are exactly the events it was seen in, each id once |
| ArtifactsPage.DedupRefs | src/pages/artifacts.tsx:71-77 | every referenced id is kept, each id once, and only references from the input |
| ArtifactsPage.DedupRefsFirst | src/pages/artifacts.tsx:71-77 | the reference kept for an id is the first reference to that id |
| ArtifactsPage.DedupRefsOrder | src/pages/artifacts.tsx:71-77 | the kept references are in the order of their ids' first references |
| ArtifactsPage.FilterItems | src/pages/artifacts.tsx:85-89 | keeps exactly the items whose value, linked value or a name contains the lower-cased query |
| ArtifactsPage.Refine | src/pages/artifacts.tsx:84-90 | every group keeps its type and has its items filtered |
| ArtifactsPage.DropEmptyMember | src/pages/artifacts.tsx:93 | keeps exactly the groups with items |
| ArtifactsPage.Search | src/pages/artifacts.tsx:81-93 | no shown group is empty; without a query the non-empty groups are shown; with one, a group is shown with exactly its matching items when any match |
| ArtifactsPage.ArtifactGroups | src/pages/artifacts.tsx:39-94 | every shown group has items; with an empty search the page shows the aggregate unchanged; with a search, the shown groups are exactly the aggregate's groups with their matching items, among those that keep one |
| ArtifactsPage.FilterItemsAppend | src/pages/artifacts.tsx:85-89 | the item filter works item by item and keeps the items' order |
| ArtifactsPage.DropEmptyAppend | src/pages/artifacts.tsx:93 | the empty-group filter works group by group and keeps the groups' order |
| ArtifactsPage.SearchAppend | src/pages/artifacts.tsx:81-93 | the groups shown for a concatenation are those shown for each part, in order |
| ArtifactsPage.SearchSingle | src/pages/artifacts.tsx:81-93 | a single group is shown, with its matching items, exactly when one of its items matches |
| ArtifactsPage.SearchFirst | src/pages/artifacts.tsx:81-97 | after a search, the first shown group, and so the default tab, is the first group of the aggregate that keeps an item |
| ArtifactsPage.DefaultTab | src/pages/artifacts.tsx:97 | the first group's type, or "hostname" when there are no groups |
| ArtifactsPage.SyncTab | src/pages/artifacts.tsx:101-105 | the active tab always names a shown group when there is one; a valid tab, or no groups, leaves it unchanged; otherwise the first group's tab is taken |
| ArtifactsPage.SyncTabIdempotent | src/pages/artifacts.tsx:101-105 | running the tab effect again changes nothing |
| Report.GroupArtifactsAgrees | src/lib/report.ts:31-73 | the report groups exactly as the artifacts page does; each item's `name` is the first of its names |
| Report.SortByTime | src/lib/report.ts:77-79 | the sorted events are ascending in time and a permutation of the input |
| Report.SortStable | src/lib/report.ts:77-79 | events with equal times keep their input order |
| Report.ObservedInPlural | src/lib/report.ts:131 | the count line says "event" for exactly one event and "events" otherwise |
| Report.EventDescription | src/lib/report.ts:86-88 | an event's paragraph appears iff its description is non-empty |
| Report.EventMitre | src/lib/report.ts:90-95 | the MITRE block appears iff the event has a tactic or a technique |
| Report.EventContext | src/lib/report.ts:97-103 | the context block appears iff the event has a host, user or process |
| Report.EventSearchQuery | src/lib/report.ts:105-107 | a fenced search query appears iff the event has one |
| Report.EventRawLog | src/lib/report.ts:109-111 | a fenced raw log appears iff the event has one |
| Report.EventShape | src/lib/report.ts:84-113 | an event block has exactly one event heading, its own, no section heading, and ends with a rule |
| Report.EventsPiecesShape | src/lib/report.ts:83-114 | the event headings of the blocks are those of the events, in order |
| Report.TimelineShape | src/lib/report.ts:75-117 | the timeline section has one section heading and one event heading per event in sorted order |
| Report.EventLines | src/lib/report.ts:132-134 | one line per event reference, with its formatted time and title |
| Report.ItemRelated | src/lib/report.ts:128-130 | a "Related" line appears iff the item has a linked value |
| Report.ItemShape | src/lib/report.ts:126-135 | an item block has its own heading and no other heading |
| Report.ItemEventLines | src/lib/report.ts:131-134 | an item lists each of its events once, on one line each, in order |
| Report.ItemObservedIn | src/lib/report.ts:131 | the count line gives the item's number of events |
| Report.GroupShape | src/lib/report.ts:122-137 | a group block has one group heading and one item heading per item, in order |
| Report.ArtifactsShape | src/lib/report.ts:119-140 | the artifacts section has one section heading, no event heading, and one group heading per group in order |
| Report.GenerateReport | src/lib/report.ts:142-170 | fails iff the list is empty; otherwise starts with title, generation time, summary heading and summary |
| Report.ReportOpening | src/lib/report.ts:154-160 | the summary states the number of events and the formatted first and last timestamps of the list as given |
| Report.ReportSections | src/lib/report.ts:154-167 | the section heading pieces are Executive Summary, Timeline of Events and Artifacts & Indicators of Compromise, in that order |
| Report.ReportGroupHeadings | src/lib/report.ts:163-167 | the artifact-type heading pieces are those of the report's grouping, in order |
| Report.HeadingMarkers | src/lib/report.ts:81-158 | the title renders as a first-level markdown heading, the sections as second-level, events and artifact types as third-level, items as fourth-level |
| Report.DescriptionMayBeHeading | src/lib/report.ts:86-88 | a description is inserted unescaped, so a description starting with `## ` renders as a second-level heading |
| Report.RawLogMayCloseFence | src/lib/report.ts:109-111 | a raw log is inserted unescaped, so a line of three backticks in it closes the log's fence early |
| Report.ReportTimeline | src/lib/report.ts:75-84 | the report has exactly one event heading piece per event, in stable ascending-time order |
| Report.ReportStartsWithTitle | src/lib/report.ts:154 | the rendered text starts with `# Incident Response Report` |
| TimelinePanel.ToggleCollapse | src/components/Timeline.tsx:119-128 | the id's membership flips; every other id keeps its membership |
| TimelinePanel.ToggleTwice | src/components/Timeline.tsx:119-128 | toggling the same id twice restores the set |
| TimelinePanel.ToggleCommutes | src/components/Timeline.tsx:119-128 | toggles of two ids commute |
| TimelinePanel.CloseDialog | src/components/Timeline.tsx:65-68 | the dialog is closed with nothing selected; collapse state kept |
| TimelinePanel.ClickEvent | src/components/Timeline.tsx:59-63 | the dialog opens on the clicked event and the page is notified with it |
| TimelinePanel.SelectEvent | src/components/Timeline.tsx:46-55 | an unknown id changes nothing and notifies nobody; a known id opens the dialog on an event with that id and notifies the page with it |
| TimelinePanel.SelectIsFirstClick | src/components/Timeline.tsx:46-63 | selecting by id is clicking the first event carrying it |
| TimelinePanel.Save | src/components/Timeline.tsx:81-85 | other events are unchanged and the dialog closes with nothing selected |
| TimelinePanel.SaveStoresEdit | src/components/Timeline.tsx:81-85 | the stored event becomes the dialog's event iff the dialog cleared no key an update cannot clear |
| TimelinePanel.AddFromPanel | src/components/Timeline.tsx:70-79 | the new event is stored; the dialog opens only for a non-empty id found in the event list the panel was rendered with; otherwise the panel is unchanged |
| TimelinePanel.AddNeverOpensDialog | src/components/Timeline.tsx:70-79 | with a fresh id the new event is stored but the dialog never opens on it |
| EventForm.FormatTimestampForInput | src/components/timeline/event-dialog/EventForm.tsx:53-74 | empty gives the current time cut to 16 characters; a long enough string with a `T` gives its first 16 characters; otherwise the parsed date cut to 16, or the current time when it does not parse |
| EventForm.FormatCutsNonIso | src/components/timeline/event-dialog/EventForm.tsx:58-60 | a long string with a `T` not at index 10 is shown as something other than `YYYY-MM-DDTHH:mm` |
| EventForm.FormatCutsDateString | src/components/timeline/event-dialog/EventForm.tsx:58-60 | `Date.toString()` output is cut to "Mon Jan 01 2024 " instead of being parsed |
| EventForm.FormatTimestampForInputIso | src/components/timeline/event-dialog/EventForm.tsx:53-74 | the same normalisation with the format test on the separator at index 10 |
| EventForm.FormatIsoShaped | src/components/timeline/event-dialog/EventForm.tsx:53-74 | with an ISO clock and parser the shown value is always `YYYY-MM-DDTHH:mm` and showing it again changes nothing |
| EventForm.FormatVersionsAgree | src/components/timeline/event-dialog/EventForm.tsx:53-74 | the two versions agree on empty, ISO-shaped and `T`-free timestamps |
| EventForm.SetTimestamp | src/components/timeline/event-dialog/EventForm.tsx:92 | only the timestamp changes, to the input's value |
| EventForm.SetTitle | src/components/timeline/event-dialog/EventForm.tsx:103 | only the title changes, to the input's value |
| EventForm.SetDescription | src/components/timeline/event-dialog/EventForm.tsx:113 | only the description changes, to the input's value |
| EventForm.SetArtifacts | src/components/timeline/event-dialog/EventForm.tsx:76-81 | only the artifacts change, to the given list |
| EventForm.EditsCommute | src/components/timeline/event-dialog/EventForm.tsx:76-113 | edits of different fields commute; the later edit of a field wins |
| EventForm.ParentOptionsMember | src/components/timeline/event-dialog/EventForm.tsx:143-145 | the options are exactly the events with another id |
| EventForm.ParentOptionsAppend | src/components/timeline/event-dialog/EventForm.tsx:143-150 | the options of a concatenation are the options of each part, in order: the picker lists the events in store order |
| EventForm.ChildIsOffered | src/components/timeline/event-dialog/EventForm.tsx:143-145 | a child of the edited event is offered as its parent |
| EventForm.PickChildBlocksDelete | src/components/timeline/event-dialog/EventForm.tsx:126-131 | choosing a child as parent and saving makes the page's delete of the event a no-op |
| EventForm.PickerValue | src/components/timeline/event-dialog/EventForm.tsx:125 | the parent id when non-empty, otherwise "none" |
| EventForm.PickParent | src/components/timeline/event-dialog/EventForm.tsx:126-131 | "none" removes the parent, any other value becomes it; nothing else changes |
| EventForm.PickShownValue | src/components/timeline/event-dialog/EventForm.tsx:125-131 | choosing the shown value keeps the event, except that an empty parent id is dropped; no parent can become "none" |
| EventForm.ParentText | src/components/timeline/event-dialog/EventForm.tsx:136-138 | "None" without a parent; "Untitled Event" when no event has the parent id; otherwise the display title of the first event carrying it |
| Events.DisplayTitle | src/components/timeline/event-dialog/EventForm.tsx:147 | the title when non-empty, otherwise "Untitled Event" |
| EventDetails.TextHeight | src/components/timeline/event-dialog/EventDetails.tsx:62-63 | at least 72, and either 72 or 24 per line |
| EventDetails.EditorHeight | src/components/timeline/event-dialog/EventDetails.tsx:60-68 | an absent or empty query gives 72; otherwise the text height of the query |
| EventDetails.HeightByLines | src/components/timeline/event-dialog/EventDetails.tsx:61-64 | up to two line breaks give 72; from two line breaks on, 24 per line |
| EventDetails.HeightMonotone | src/components/timeline/event-dialog/EventDetails.tsx:62-63 | more lines never give a smaller editor |
| EventDetails.EditQuery | src/components/timeline/event-dialog/EventDetails.tsx:79-86 | the query becomes the value or ""; nothing else changes; an empty value keeps the height; a non-empty one resizes |
| EventDetails.EditAgreesWithEffect | src/components/timeline/event-dialog/EventDetails.tsx:60-86 | after a non-empty edit the handler's height equals the effect's; after an empty one the effect gives 72 |
| EventDetails.EditRawLog | src/components/timeline/event-dialog/EventDetails.tsx:114 | only the raw log changes, to the textarea's value |
| EventDetails.EditsIndependent | src/components/timeline/event-dialog/EventDetails.tsx:79-114 | the query and raw-log edits commute |
| Visualization.Overlay | src/components/Visualization.tsx:181-186 | same length, ids and data in order; each node takes its saved position when there is one, its computed one otherwise |
| Visualization.Refresh | src/components/Visualization.tsx:173-190 | no events give an empty graph; otherwise the layout's edges and node count, with saved positions laid over when a map is given |
| Visualization.Positions | src/components/Visualization.tsx:198-201 | the map's keys are exactly the node ids |
| Visualization.PositionsLastWins | src/components/Visualization.tsx:138-142 | each id maps to the position of the last node carrying it |
| Visualization.OverlayOwnPositions | src/components/Visualization.tsx:181-201 | laying a graph's own position map over it changes nothing when ids are distinct |
| Visualization.ResetShowsLayout | src/pages/Index.tsx:397-398 | after the page empties the saved map the computed layout is shown unchanged |
| Visualization.IsRoot | src/components/Visualization.tsx:82 | a node is a root iff its parent id is absent or empty |
| Visualization.NewEventsAreRoots | src/components/Visualization.tsx:82 | a new parentless event and a lateral movement's new event are roots |
| Colors.EventColor | src/lib/utils.ts:24-35 | always one of the six classes; the depth-th class for depths below six |
| Colors.ColorPeriodic | src/lib/utils.ts:34 | colours repeat every six levels |
| Colors.ColorDistinctNearby | src/lib/utils.ts:25-34 | depths less than six apart get different colours |
| Colors.RootIsBlue | src/lib/utils.ts:26-34 | depth 0 is "border-blue-500" |

## Left out

- `calculateLayout` (src/components/visualization/layoutUtils) is not part of this model. It is a parameter, and node positions and edges are not checked.
- PNG export, the report download in `ReportButton.tsx`, toasts and `console` output are I/O and are not modelled.
- React scheduling is not modelled: state setters are applied in order and batched updates are merged. The close-then-open in `selectEvent` is one update.
- `ActionButtons.tsx` and the Monaco language and theme set-up in `EventDetails.tsx` are configuration, not logic.
- `handleEditModeToggle`, demo loading and the tab switch with its `setTimeout` are not modelled. The event selection that the tab switch leads to is modelled as `TimelinePanel.SelectEvent`.
- Dates are not modelled. `Date` parsing, `toISOString`, `toLocaleString` and `formatTimestamp` are uninterpreted parameters. The report's sort key is an integer function, so `NaN` times, where the comparator returns `NaN`, are not modelled.
- `toLowerCase` is a parameter. Case folding is not modelled.
- `event.artifacts?` being `undefined` is not modelled: every event has a list, possibly empty.
- The editor height is kept as a number of pixels. The `"px"` string form is not modelled.
- XY positions are opaque reals. They are copied, never computed.
- CascadeDelete.DeleteEvent: the recursion depth is bounded by the number of events plus one. Beyond that bound the model treats the walk as not ending, which is what a cycle does; without a cycle below the deleted id the bound is never reached (`CascadeDelete.NoLongChainsBelow`). The JavaScript engine's own stack limit is not modelled: there a long acyclic chain also overflows, the catch at `src/pages/Index.tsx:306-308` returns the list unchanged, while the model deletes the chain at any depth.
- Colors.EventColor: the depth is a natural number. In JavaScript a negative depth gives a negative remainder at `src/lib/utils.ts:34`, so `colors[depth % 6]` is `undefined`, and so is a fractional depth. The model does not cover these depths: it states the colour only for nesting levels counted up from 0, and the callers of `getEventColor` are not part of this model.
- EventForm.FormatTimestampForInput: JavaScript `length` and `slice` count UTF-16 code units (`src/components/timeline/event-dialog/EventForm.tsx:58-59`), while Dafny strings count Unicode scalar values, so a timestamp holding characters outside the Basic Multilingual Plane may take another branch, or be cut at another point, than in the browser.
- User text in the report is not escaped: descriptions, titles, search queries and raw logs go into the markdown as they are. `Report.ReportSections`, `Report.ReportTimeline` and `Report.ReportGroupHeadings` state the heading pieces, not the headings a markdown reader would find in the rendered text (`Report.DescriptionMayBeHeading`, `Report.RawLogMayCloseFence`).
- Events.DisplayTitle: the "Untitled Event" fallback in the toast text (src/pages/Index.tsx:218) and in the graph node (src/components/Visualization.tsx:97) is the same function and is not modelled separately.

## Findings

| source | as written | input that shows it | evidently intended | confidence | as-written member | corrected member |
|---|---|---|---|---|---|---|
| src/components/timeline/event-dialog/EventForm.tsx:58 | treats any string of 16 or more characters with a `T` anywhere as already formatted, and cuts it to 16 characters | "Mon Jan 01 2024 10:00:00 GMT+0000" (the `Date.prototype.toString` form, whose `T` is in "GMT") is shown as "Mon Jan 01 2024 ", which is not a `datetime-local` value | test for the `YYYY-MM-DDTHH:mm` shape, the `T` at index 10, and parse anything else | medium, not executed | EventForm.FormatCutsDateString | EventForm.FormatIsoShaped |
