/** Where `render_flag` places its text labels. Rectangles hold `u16`
    coordinates, and every sum or difference below is a checked `u16`
    operation that panics instead of wrapping. */
module Placement {
  import opened MachineInts
  import opened Wrappers

  /** A terminal rectangle: left column, top row, width and height in cells. */
  datatype Rect = Rect(x: U16, y: U16, width: U16, height: U16)

  /** `y + height - 1` can be computed: the sum does not overflow, and the
      subtraction does not underflow because the sum is not zero. */
  predicate RowFits(stripe: Rect)
  {
    1 <= stripe.y + stripe.height < 0x1_0000
  }

  /** The colour-name label of width `nameWidth` fits in `u16` arithmetic:
      `width - nameWidth` does not underflow, adding `x` does not overflow,
      and the bottom row can be computed. */
  predicate LabelFits(stripe: Rect, nameWidth: U16)
  {
    && nameWidth <= stripe.width
    && stripe.x + stripe.width - nameWidth < 0x1_0000
    && RowFits(stripe)
  }

  /** `(y + height) - 1`, evaluated left to right as Rust does. */
  function BottomRow(stripe: Rect): Option<U16>
  {
    match CheckedAdd16(stripe.y, stripe.height)
    case None => None
    case Some(sum) => CheckedSub16(sum, 1)
  }

  /** The flag-name rectangle: the first stripe moved to its bottom row.
      It exists exactly when the row arithmetic neither overflows nor
      underflows. With `height == 0` and `y >= 1` it does not panic but lands
      one row above the stripe; only with `height >= 1` is it the stripe's
      own bottom row. */
  function FlagNameRect(stripe: Rect): (r: Option<Rect>)
    ensures r.Some? <==> RowFits(stripe)
    ensures r.Some? ==> r.value.x == stripe.x && r.value.width == stripe.width && r.value.height == stripe.height
    ensures r.Some? ==> r.value.y + 1 == stripe.y + stripe.height
    ensures r.Some? && stripe.height >= 1 ==> stripe.y <= r.value.y < stripe.y + stripe.height
    ensures r.Some? && stripe.height == 0 ==> r.value.y + 1 == stripe.y
  {
    match BottomRow(stripe)
    case None => None
    case Some(row) => Some(stripe.(y := row))
  }

  /** The colour-name rectangle: moved right by `width - nameWidth` and to
      row `y + height - 1`, keeping the stripe's width and height. It exists
      exactly when `LabelFits`; then the label's text, `nameWidth` cells
      wide, ends exactly at the stripe's right edge `x + width`, and starts
      at or right of `x` (one column past the stripe for an empty name).
      The row is the stripe's bottom row when `height >= 1`, and one row
      above the stripe when `height == 0`. */
  function ColorNameRect(stripe: Rect, nameWidth: U16): (r: Option<Rect>)
    ensures r.Some? <==> LabelFits(stripe, nameWidth)
    ensures r.Some? ==> r.value.x + nameWidth == stripe.x + stripe.width
    ensures r.Some? ==> stripe.x <= r.value.x <= stripe.x + stripe.width
    ensures r.Some? ==> r.value.y + 1 == stripe.y + stripe.height
    ensures r.Some? && stripe.height >= 1 ==> stripe.y <= r.value.y < stripe.y + stripe.height
    ensures r.Some? && stripe.height == 0 ==> r.value.y + 1 == stripe.y
    ensures r.Some? ==> r.value.width == stripe.width && r.value.height == stripe.height
    ensures nameWidth > stripe.width ==> r.None?
  {
    match CheckedSub16(stripe.width, nameWidth)
    case None => None
    case Some(gap) =>
      match CheckedAdd16(stripe.x, gap)
      case None => None
      case Some(left) =>
        match BottomRow(stripe)
        case None => None
        case Some(row) => Some(stripe.(x := left, y := row))
  }

  /** A colour name wider than its stripe (width 3, "Magenta" 7 cells wide)
      makes the subtraction underflow: the frame panics. */
  lemma NarrowStripeUnderflows()
    ensures ColorNameRect(Rect(0, 0, 3, 10), 7).None?
  {
  }
}
