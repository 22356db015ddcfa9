/** The search-query and raw-log pane of the event dialog
    (src/components/timeline/event-dialog/EventDetails.tsx): the height of
    the query editor and the two edit handlers. The height is kept as its
    number of pixels; the state holds it as that number followed by "px". */
module EventDetails {
  import opened Wrappers
  import opened Js
  import opened Events

  /** The smallest editor height, three lines of 24 pixels. */
  const MinHeight: nat := 72
  const LineHeight: nat := 24

  /** `Math.max(72, text.split('\n').length * 24)`. */
  function TextHeight(text: string): (h: nat)
    ensures h >= MinHeight
    ensures h == MinHeight || h == LineHeight * SplitCount(text, '\n')
    ensures h >= LineHeight * SplitCount(text, '\n')
  {
    var lines := SplitCount(text, '\n');
    if LineHeight * lines > MinHeight then LineHeight * lines else MinHeight
  }

  /** The effect run whenever the query changes: an absent or empty query
      gives the minimum height. */
  function EditorHeight(query: Option<string>): (h: nat)
    ensures h >= MinHeight
    ensures !Truthy(query) ==> h == MinHeight
    ensures Truthy(query) ==> h == TextHeight(query.value)
  {
    if Truthy(query) then TextHeight(query.value) else MinHeight
  }

  /** Up to three lines fit the minimum height; every line beyond that adds
      one line height. */
  lemma HeightByLines(text: string)
    ensures CountChar(text, '\n') <= 2 ==> TextHeight(text) == MinHeight
    ensures CountChar(text, '\n') >= 2 ==> TextHeight(text) == LineHeight * (CountChar(text, '\n') + 1)
  {
  }

  /** A longer query never gets a smaller editor. */
  lemma HeightMonotone(a: string, b: string)
    requires CountChar(a, '\n') <= CountChar(b, '\n')
    ensures TextHeight(a) <= TextHeight(b)
  {
  }

  /** The editor's `onChange(value)`: the query becomes the value, or ""
      when the editor reports no value; a non-empty value resizes the
      editor, an empty one leaves the height as it was. */
  function EditQuery(e: Event, height: nat, value: Option<string>): (r: (Event, nat))
    ensures r.0.searchQuery == Some(OrEmpty(value))
    ensures r.0.(searchQuery := e.searchQuery) == e
    ensures !Truthy(value) ==> r.1 == height
    ensures Truthy(value) ==> r.1 == TextHeight(value.value)
  {
    (e.(searchQuery := Some(OrEmpty(value))),
     if Truthy(value) then TextHeight(value.value) else height)
  }

  /** After a non-empty edit the handler's height is the one the effect
      computes for the new query; after an empty edit the effect puts the
      minimum back, whatever the handler left. */
  lemma EditAgreesWithEffect(e: Event, height: nat, value: Option<string>)
    ensures var (e', h) := EditQuery(e, height, value);
      Truthy(value) ==> EditorHeight(e'.searchQuery) == h
    ensures var (e', h) := EditQuery(e, height, value);
      !Truthy(value) ==> EditorHeight(e'.searchQuery) == MinHeight
  {
  }

  /** The raw-log textarea's `onChange`. */
  function EditRawLog(e: Event, v: string): (r: Event)
    ensures r.rawLog == Some(v) && r.(rawLog := e.rawLog) == e
  {
    e.(rawLog := Some(v))
  }

  /** The two handlers touch different fields, so their order does not
      matter. */
  lemma EditsIndependent(e: Event, height: nat, value: Option<string>, log: string)
    ensures EditQuery(EditRawLog(e, log), height, value).0 == EditRawLog(EditQuery(e, height, value).0, log)
  {
  }
}
