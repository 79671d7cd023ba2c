/**
 * The logic of the ContributionGraph component: bucketing a count into an intensity level,
 * the two colour palettes, the legend, the tooltip label and the hovered-day state.
 */
module ContributionGraph {
  import opened Types

  // ---------------------------------------------------------------- intensity

  /**
   * getIntensityLevel: 0 for no contributions, then buckets of three up to 9, then 4.
   * The source compares without a lower bound, so a negative count lands in level 1.
   */
  function IntensityLevel(count: int): (level: nat)
    ensures level <= 4
    ensures level == 0 <==> count == 0
  {
    if count == 0 then 0
    else if count <= 3 then 1
    else if count <= 6 then 2
    else if count <= 9 then 3
    else 4
  }

  /** The cut points: 1..3, 4..6, 7..9 and 10 and above. */
  lemma IntensityBuckets(count: int)
    ensures 1 <= count <= 3 ==> IntensityLevel(count) == 1
    ensures 4 <= count <= 6 ==> IntensityLevel(count) == 2
    ensures 7 <= count <= 9 ==> IntensityLevel(count) == 3
    ensures count >= 10 ==> IntensityLevel(count) == 4
    ensures count < 0 ==> IntensityLevel(count) == 1
  {
  }

  function Min(a: int, b: int): int {
    if a <= b then a else b
  }

  /** A second description of the buckets: a positive count's level is ceil(count / 3), capped at 4. */
  lemma IntensityIsCappedThirds(count: nat)
    ensures IntensityLevel(count) == if count == 0 then 0 else Min(4, (count + 2) / 3)
  {
  }

  /** More contributions never give a lighter cell. */
  lemma IntensityMonotone(a: int, b: int)
    requires 0 <= a <= b
    ensures IntensityLevel(a) <= IntensityLevel(b)
  {
  }

  // ---------------------------------------------------------------- colours

  const LightPalette: seq<string> := ["bg-gray-100", "bg-green-200", "bg-green-400", "bg-green-600", "bg-green-800"]
  const DarkPalette: seq<string> := ["bg-gray-800", "bg-green-900", "bg-green-700", "bg-green-500", "bg-green-400"]

  /** The palette of a theme, from "no activity" to "highest activity": the light one only for `light`. */
  function Palette(theme: Theme): (p: seq<string>)
    ensures |p| == 5
    ensures p == LightPalette <==> theme == Light
    ensures theme == Dark ==> p == DarkPalette
  {
    if theme == Light then LightPalette else DarkPalette
  }

  /** getColorClass: the palette entry of the count's intensity level; no activity is entry 0. */
  function ColorClass(theme: Theme, count: int): (c: string)
    ensures c == Palette(theme)[IntensityLevel(count)]
    ensures c in Palette(theme)
    ensures count == 0 ==> c == Palette(theme)[0]
  {
    var level := IntensityLevel(count);
    if theme == Light then LightPalette[level] else DarkPalette[level]
  }

  /** The five entries of a palette are different from each other. */
  lemma PaletteDistinct(theme: Theme, i: nat, j: nat)
    requires i < 5 && j < 5 && i != j
    ensures Palette(theme)[i] != Palette(theme)[j]
  {
  }

  /** Two counts get the same colour exactly when they are in the same intensity level. */
  lemma SameColorIffSameLevel(theme: Theme, a: int, b: int)
    ensures ColorClass(theme, a) == ColorClass(theme, b) <==> IntensityLevel(a) == IntensityLevel(b)
  {
  }

  // ---------------------------------------------------------------- legend

  /** The sample count the legend colours its square for `level` with; it lies in that level. */
  function LegendSampleCount(level: int): (n: int)
    ensures 0 <= level <= 4 ==> IntensityLevel(n) == level
  {
    if level == 0 then 0
    else if level == 1 then 2
    else if level == 2 then 5
    else if level == 3 then 8
    else 12
  }

  /** The legend's five squares: the whole palette of the theme, once each and in order. */
  function LegendColors(theme: Theme): (cs: seq<string>)
    ensures cs == Palette(theme)
  {
    seq(5, level requires 0 <= level < 5 => ColorClass(theme, LegendSampleCount(level)))
  }

  // ---------------------------------------------------------------- tooltip

  /** The tooltip's noun: singular only for exactly one contribution. */
  function TooltipLabel(count: int): (noun: string)
    ensures noun == "contribution" <==> count == 1
    ensures noun == "contributions" <==> count != 1
  {
    if count == 1 then "contribution" else "contributions"
  }

  /** The anchor point computed from the hovered cell's bounding box (kept as given). */
  datatype Anchor = Anchor(x: real, y: real)

  /** The hovered-day record: the cell's date and count, and where the tooltip is anchored. */
  datatype HoveredDay = HoveredDay(date: string, count: int, anchor: Anchor)

  datatype HoverEvent = MouseEnter(day: HoveredDay) | MouseLeave

  /** The state after one event: entering a cell replaces whatever was shown, leaving clears it. */
  function NextHover(state: Option<HoveredDay>, e: HoverEvent): (next: Option<HoveredDay>)
    ensures e.MouseEnter? ==> next == Some(e.day)
    ensures e.MouseLeave? ==> next == None
  {
    match e
    case MouseEnter(day) => Some(day)
    case MouseLeave => None
  }

  /** The state after a whole run of events. */
  function Replay(state: Option<HoveredDay>, events: seq<HoverEvent>): Option<HoveredDay>
    decreases |events|
  {
    if events == [] then state else Replay(NextHover(state, events[0]), events[1..])
  }

  /** Events overwrite rather than queue: after any run of events only the last one matters. */
  lemma {:induction false} ReplayLastWins(state: Option<HoveredDay>, events: seq<HoverEvent>)
    requires events != []
    ensures Replay(state, events) == NextHover(None, events[|events| - 1])
    decreases |events|
  {
    if |events| > 1 {
      ReplayLastWins(NextHover(state, events[0]), events[1..]);
    }
  }

  /** The component's `hoveredDay` state, changed by the mouse handlers. */
  class HoverTracker {
    var hoveredDay: Option<HoveredDay>

    /** `useState(null)`: nothing is hovered at first. */
    constructor ()
      ensures hoveredDay == None
    {
      hoveredDay := None;
    }

    /** handleMouseEnter: records the entered cell, whatever was recorded before. */
    method HandleMouseEnter(date: string, count: int, anchor: Anchor)
      modifies this
      ensures hoveredDay == NextHover(old(hoveredDay), MouseEnter(HoveredDay(date, count, anchor)))
      ensures hoveredDay == Some(HoveredDay(date, count, anchor))
    {
      hoveredDay := Some(HoveredDay(date, count, anchor));
    }

    /** onMouseLeave: clears the hovered day. */
    method HandleMouseLeave()
      modifies this
      ensures hoveredDay == NextHover(old(hoveredDay), MouseLeave)
      ensures hoveredDay == None
    {
      hoveredDay := None;
    }

    /** The tooltip's label: shown only while a day is hovered, and then that day's noun. */
    function ShownLabel(): (shown: Option<string>)
      reads this
      ensures shown.Some? <==> hoveredDay.Some?
      ensures shown.Some? ==> shown.value == TooltipLabel(hoveredDay.value.count)
      ensures shown.Some? ==> (shown.value == "contribution" <==> hoveredDay.value.count == 1)
    {
      match hoveredDay
      case None => None
      case Some(day) => Some(TooltipLabel(day.count))
    }
  }
}
