/** Contrast colour for overlay text: each RGB channel of the background is
    replaced by 255 minus itself. */
module Contrast {
  import opened MachineInts
  import opened Wrappers
  import opened FlagConfig

  /** The terminal colours the widget produces: a 24-bit RGB colour, or the
      named colour Black used when no RGB background is found. */
  datatype Color = Rgb(r: U8, g: U8, b: U8) | Black

  /** The stripe background of a configured colour. */
  function Background(c: FlagColor): Color
  {
    Rgb(c.r, c.g, c.b)
  }

  /** `255 - c` on `u8`: it stays in 0..255 for every byte, and the channel
      and its inverse always add up to 255. */
  function Invert(c: U8): (r: U8)
    ensures c + r == 255
    ensures r != c
  {
    255 - c
  }

  /** The text colour for a background looked up with `first()` or
      `get(index)`: the inverse of an RGB background, Black when the lookup
      found nothing or a colour that is not RGB. */
  function ContrastFor(bg: Option<Color>): (fg: Color)
    ensures fg.Rgb? <==> bg.Some? && bg.value.Rgb?
    ensures fg.Rgb? ==> fg.r + bg.value.r == 255 && fg.g + bg.value.g == 255 && fg.b + bg.value.b == 255
    ensures fg.Rgb? ==> fg != bg.value
  {
    if bg.Some? && bg.value.Rgb? then Rgb(Invert(bg.value.r), Invert(bg.value.g), Invert(bg.value.b))
    else Black
  }

  /** The text colour drawn on the stripe of a configured colour. */
  function TextColorOn(c: FlagColor): (fg: Color)
    ensures fg.Rgb? && fg.r + c.r == 255 && fg.g + c.g == 255 && fg.b + c.b == 255
  {
    ContrastFor(Some(Background(c)))
  }

  /** Inverting an inverted RGB colour gives back the original colour. */
  lemma ContrastInvolution(c: Color)
    requires c.Rgb?
    ensures ContrastFor(Some(ContrastFor(Some(c)))) == c
  {
  }

  /** The inverse of a configured colour's stripe, inverted again, is that
      stripe's background: the (r, g, b) triple comes back unchanged. */
  lemma TextColorInvolution(c: FlagColor)
    ensures ContrastFor(Some(TextColorOn(c))) == Background(c)
  {
  }
}
