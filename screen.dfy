/**
 * The two 3DS screens the generated plugin can draw on, and Python's
 * truthiness rule for the optional integer options of the converter.
 */
module Screen {
  import opened Wrappers

  /** Every screen is 240 pixels high. */
  const ScreenHeight: int := 240

  /** 400 pixels wide for the top screen, 320 for the bottom one. */
  function BoundWidth(isBottom: bool): (w: int)
    ensures w == 320 || w == 400
    ensures isBottom <==> w == 320
  {
    if isBottom then 320 else 400
  }

  /** An option counts as supplied only when it is present and non-zero
      (`None` and `0` are both falsy in Python). */
  predicate Given(o: Option<int>) {
    o.Some? && o.value != 0
  }

  /** Python's `v if v else d` on an optional integer. */
  function OrDefault(o: Option<int>, d: int): int {
    if Given(o) then o.value else d
  }
}
