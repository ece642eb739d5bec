/** `calc_position` and the `x`/`y` overrides applied after it in `convert`. */
module Position {
  import opened Wrappers
  import opened Screen
  import opened Sizing

  /**
   * Centres a `width` by `height` region on the screen with floor
   * division: the margin left over on the right (bottom) is the one on
   * the left (top), or one pixel more.
   */
  function CalcPosition(width: int, height: int, isBottom: bool): (p: (int, int))
    ensures 2 * p.0 <= BoundWidth(isBottom) - width <= 2 * p.0 + 1
    ensures 2 * p.1 <= ScreenHeight - height <= 2 * p.1 + 1
    ensures width <= BoundWidth(isBottom) ==> 0 <= p.0 && p.0 + width <= BoundWidth(isBottom)
    ensures height <= ScreenHeight ==> 0 <= p.1 && p.1 + height <= ScreenHeight
  {
    ((BoundWidth(isBottom) - width) / 2, (ScreenHeight - height) / 2)
  }

  /** The drawing position: `x if x else optimal_x`, and the same for `y`. */
  function Place(final: Size, isBottom: bool, x: Option<int>, y: Option<int>): (int, int) {
    var c := CalcPosition(final.width, final.height, isBottom);
    (OrDefault(x, c.0), OrDefault(y, c.1))
  }

  /** A supplied coordinate replaces the centred one exactly when it is
      non-zero; a supplied 0 is the same as none. */
  lemma OverrideOnlyWhenNonZero(final: Size, isBottom: bool, x: Option<int>, y: Option<int>)
    ensures var c := CalcPosition(final.width, final.height, isBottom);
      var p := Place(final, isBottom, x, y);
      && (p.0 == if Given(x) then x.value else c.0)
      && (p.1 == if Given(y) then y.value else c.1)
    ensures Place(final, isBottom, Some(0), y) == Place(final, isBottom, None, y)
    ensures Place(final, isBottom, x, Some(0)) == Place(final, isBottom, x, None)
  {
  }

  /** Without an override, the image drawn at the default position lies
      wholly on the screen. */
  lemma DefaultPositionOnScreen(src: Size, width: Option<int>, height: Option<int>, isBottom: bool)
    requires Positive(src) && Acceptable(width) && Acceptable(height)
    ensures var f := Decide(src, width, height, isBottom).final;
      var p := Place(f, isBottom, None, None);
      0 <= p.0 && p.0 + f.width <= BoundWidth(isBottom) && 0 <= p.1 && p.1 + f.height <= ScreenHeight
  {
    FinalWithinScreen(src, width, height, isBottom);
  }

  /** A 100 by 50 image is placed at (150, 95) on the top screen and at
      (110, 95) on the bottom one. */
  lemma CentredExamples()
    ensures CalcPosition(100, 50, false) == (150, 95)
    ensures CalcPosition(100, 50, true) == (110, 95)
  {
  }

  /** A 500 by 100 source for the top screen is resized once, to 400 by
      240, and then drawn from the corner: the position is computed on the
      resized image. */
  lemma WideSourceExample()
    ensures Decide(Size(500, 100), None, None, false) == SizePlan([Size(400, 240)], Size(400, 240))
    ensures Place(Size(400, 240), false, None, None) == (0, 0)
  {
  }
}
