/** The text overlays `render_flag` draws over a flag's stripes. The stripe
    rectangles come from the terminal layout engine and the display widths
    of the colour names from Unicode width tables; both are inputs here.
    `None` is a panic during the frame. */
module Render {
  import opened MachineInts
  import opened Wrappers
  import opened FlagConfig
  import opened Contrast
  import opened Placement

  /** The two display toggles, flipped live by the keyboard. */
  datatype RenderConfig = RenderConfig(showFlagName: bool, showColorNames: bool)

  /** One piece of text drawn in `fg` with its rectangle's top-left corner
      as its start. */
  datatype Label = Label(text: string, fg: Color, area: Rect)

  /** A colour name of `nameWidth` cells can be converted to `u16` and placed
      on `stripe` without a panic. */
  predicate NameFits(stripe: Rect, nameWidth: nat)
  {
    nameWidth < 0x1_0000 && LabelFits(stripe, nameWidth)
  }

  /** `l` is the label of colour `c` on `stripe`: its name, in the inverse of
      the stripe colour, ending at the right edge, on row `y + height - 1`
      (the bottom row when the stripe has a height, one row above it
      otherwise). */
  predicate IsColorLabel(l: Label, c: FlagColor, stripe: Rect, nameWidth: nat)
  {
    && l.text == c.name
    && l.fg == TextColorOn(c)
    && l.area.x + nameWidth == stripe.x + stripe.width
    && l.area.y + 1 == stripe.y + stripe.height
  }

  /** The flag-name label: the flag's name in the inverse of the first
      stripe's colour, at the first stripe's left edge on row
      `y + height - 1`: the bottom row when `height >= 1`, one row above the
      stripe when `height == 0`. Indexing the first stripe panics when the
      flag has no colours. */
  function FlagNameLabel(flag: PrideFlag, stripes: seq<Rect>): (r: Option<Label>)
    requires |stripes| == |flag.colors|
    ensures r.Some? <==> |stripes| > 0 && RowFits(stripes[0])
    ensures r.Some? ==> r.value.text == flag.name && r.value.fg == TextColorOn(flag.colors[0])
    ensures r.Some? ==> r.value.area.x == stripes[0].x && r.value.area.y + 1 == stripes[0].y + stripes[0].height
    ensures r.Some? && stripes[0].height >= 1 ==> stripes[0].y <= r.value.area.y < stripes[0].y + stripes[0].height
    ensures r.Some? && stripes[0].height == 0 ==> r.value.area.y + 1 == stripes[0].y
  {
    var fg := ContrastFor(if |flag.colors| > 0 then Some(Background(flag.colors[0])) else None);
    if |stripes| == 0 then None
    else
      match FlagNameRect(stripes[0])
      case None => None
      case Some(area) => Some(Label(flag.name, fg, area))
  }

  /** The label of one colour on its own stripe. */
  function ColorNameLabel(c: FlagColor, stripe: Rect, nameWidth: nat): (r: Option<Label>)
    ensures r.Some? <==> NameFits(stripe, nameWidth)
    ensures r.Some? ==> IsColorLabel(r.value, c, stripe, nameWidth)
  {
    match ToU16(nameWidth)
    case None => None
    case Some(w) =>
      match ColorNameRect(stripe, w)
      case None => None
      case Some(area) => Some(Label(c.name, TextColorOn(c), area))
  }

  /** The colour-name labels, one per stripe in stripe order. The frame
      survives exactly when every name fits its own stripe. */
  function ColorNameLabels(colors: seq<FlagColor>, stripes: seq<Rect>, widths: seq<nat>): (r: Option<seq<Label>>)
    requires |stripes| == |colors| && |widths| == |colors|
    ensures r.Some? <==> forall i :: 0 <= i < |colors| ==> NameFits(stripes[i], widths[i])
    ensures r.Some? ==> |r.value| == |colors|
    ensures r.Some? ==> forall i :: 0 <= i < |colors| ==> IsColorLabel(r.value[i], colors[i], stripes[i], widths[i])
    decreases |colors|
  {
    if |colors| == 0 then Some([])
    else
      match ColorNameLabel(colors[0], stripes[0], widths[0])
      case None => None
      case Some(l) =>
        match ColorNameLabels(colors[1..], stripes[1..], widths[1..])
        case None => None
        case Some(ls) => Some([l] + ls)
  }

  /** All text `render_flag` draws over one flag: the flag name first when
      it is shown, then the colour names when they are shown. */
  function RenderLabels(flag: PrideFlag, config: RenderConfig, stripes: seq<Rect>, widths: seq<nat>): (r: Option<seq<Label>>)
    requires |stripes| == |flag.colors| && |widths| == |flag.colors|
    ensures r.Some? <==>
              && (config.showFlagName ==> |stripes| > 0 && RowFits(stripes[0]))
              && (config.showColorNames ==> forall i :: 0 <= i < |stripes| ==> NameFits(stripes[i], widths[i]))
    ensures r.Some? ==>
              |r.value| == (if config.showFlagName then 1 else 0) + (if config.showColorNames then |flag.colors| else 0)
    ensures r.Some? && config.showFlagName ==>
              && r.value[0].text == flag.name && r.value[0].fg == TextColorOn(flag.colors[0])
              && r.value[0].area.x == stripes[0].x && r.value[0].area.y + 1 == stripes[0].y + stripes[0].height
    ensures r.Some? && config.showColorNames ==>
              var k := if config.showFlagName then 1 else 0;
              forall i :: 0 <= i < |flag.colors| ==> IsColorLabel(r.value[k + i], flag.colors[i], stripes[i], widths[i])
    ensures config.showFlagName && |flag.colors| == 0 ==> r.None?
    ensures !config.showFlagName && !config.showColorNames ==> r == Some([])
  {
    var nameLabel :=
      if !config.showFlagName then Some([])
      else
        match FlagNameLabel(flag, stripes)
        case None => None
        case Some(l) => Some([l]);
    var colorLabels :=
      if !config.showColorNames then Some([])
      else ColorNameLabels(flag.colors, stripes, widths);
    if nameLabel.None? || colorLabels.None? then None
    else Some(nameLabel.value + colorLabels.value)
  }
}
