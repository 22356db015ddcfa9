/** `getEventColor` (src/lib/utils.ts): the border colour of an event at a
    given nesting depth. A negative depth indexes outside the list in
    JavaScript, so the depth is a `nat`. */
module Colors {

  /** The palette, in the order it is cycled through. */
  const Palette: seq<string> := [
    "border-blue-500",
    "border-green-500",
    "border-purple-500",
    "border-orange-500",
    "border-pink-500",
    "border-teal-500"
  ]

  /** `colors[depth % colors.length]`. */
  function EventColor(depth: nat): (r: string)
    ensures r in Palette
    ensures depth < |Palette| ==> r == Palette[depth]
  {
    Palette[depth % |Palette|]
  }

  /** The colours repeat every six levels. */
  lemma ColorPeriodic(depth: nat)
    ensures EventColor(depth + |Palette|) == EventColor(depth)
  {
  }

  /** Levels closer than six apart differ in colour, so a child never shares
      its parent's colour. */
  lemma ColorDistinctNearby(a: nat, b: nat)
    requires a < b < a + |Palette|
    ensures EventColor(a) != EventColor(b)
  {
    var i, j := a % 6, b % 6;
    assert i != j;
    assert EventColor(a) == Palette[i] && EventColor(b) == Palette[j];
    assert Palette[i][7] != Palette[j][7] || Palette[i][8] != Palette[j][8];
  }

  /** Roots are blue. */
  lemma RootIsBlue()
    ensures EventColor(0) == "border-blue-500"
  {
  }
}
