/**
 * The sizing policy of `convert`: which resizes are issued, in which
 * order, and the size of the image once they are done. `Decide` is the
 * reference the step-by-step `Convert.Convert` is proved against.
 */
module Sizing {
  import opened Wrappers
  import opened Screen

  datatype Size = Size(width: int, height: int)

  /** The resizes issued, in order, and the final working size. */
  datatype SizePlan = SizePlan(resizes: seq<Size>, final: Size)

  function Bound(isBottom: bool): Size {
    Size(BoundWidth(isBottom), ScreenHeight)
  }

  predicate Oversized(s: Size, isBottom: bool) {
    s.width > BoundWidth(isBottom) || s.height > ScreenHeight
  }

  predicate Positive(s: Size) {
    s.width > 0 && s.height > 0
  }

  /** An absent or positive requested dimension. */
  predicate Acceptable(o: Option<int>) {
    o.None? || o.value >= 0
  }

  /** The request after defaulting: a missing or zero dimension is taken
      from the source image. */
  function Requested(src: Size, width: Option<int>, height: Option<int>): Size {
    Size(OrDefault(width, src.width), OrDefault(height, src.height))
  }

  /**
   * A resize to the defaulted request when it fits the screen and is not
   * all zero, then a resize to the full screen when the source or the
   * request is too large. The final size is that of the last resize, or
   * the source size if there was none.
   */
  function Decide(src: Size, width: Option<int>, height: Option<int>, isBottom: bool): SizePlan {
    var req := Requested(src, width, height);
    var optional := if !Oversized(req, isBottom) && (req.width != 0 || req.height != 0) then [req] else [];
    var auto := if Oversized(src, isBottom) || Oversized(req, isBottom) then [Bound(isBottom)] else [];
    var resizes := optional + auto;
    SizePlan(resizes, if resizes == [] then src else resizes[|resizes| - 1])
  }

  /** When the source or the request is too large, the image ends at the
      screen size, by a last resize to it, whatever was requested. */
  lemma OversizedGivesBound(src: Size, width: Option<int>, height: Option<int>, isBottom: bool)
    requires Oversized(src, isBottom) || Oversized(Requested(src, width, height), isBottom)
    ensures var plan := Decide(src, width, height, isBottom);
      && plan.final == Bound(isBottom)
      && plan.resizes != [] && plan.resizes[|plan.resizes| - 1] == Bound(isBottom)
  {
  }

  /** When both fit, the image ends at the defaulted request: a missing or
      zero dimension falls back to the source's. */
  lemma FittingGivesRequest(src: Size, width: Option<int>, height: Option<int>, isBottom: bool)
    requires !Oversized(src, isBottom) && !Oversized(Requested(src, width, height), isBottom)
    ensures Decide(src, width, height, isBottom).final == Requested(src, width, height)
  {
  }

  /** A fitting request that is not all zero is always issued, first, even
      when nothing was requested; at most two resizes are issued, and none
      only when the source fits and is zero-sized. */
  lemma ResizeOrder(src: Size, width: Option<int>, height: Option<int>, isBottom: bool)
    ensures var req := Requested(src, width, height);
      var plan := Decide(src, width, height, isBottom);
      && |plan.resizes| <= 2
      && (!Oversized(req, isBottom) && req != Size(0, 0) ==> plan.resizes != [] && plan.resizes[0] == req)
      && (plan.resizes == [] <==> !Oversized(src, isBottom) && req == Size(0, 0))
  {
  }

  /** Positive source dimensions and absent or positive requests give a
      positive size that fits the screen. */
  lemma FinalWithinScreen(src: Size, width: Option<int>, height: Option<int>, isBottom: bool)
    requires Positive(src) && Acceptable(width) && Acceptable(height)
    ensures var f := Decide(src, width, height, isBottom).final;
      Positive(f) && !Oversized(f, isBottom)
  {
  }

  /** With nothing requested, a source that fits is still resized, to its
      own size; the final size is the source size. */
  lemma FittingSourceResizedToItself(src: Size, width: Option<int>, height: Option<int>, isBottom: bool)
    requires !Given(width) && !Given(height)
    requires Positive(src) && !Oversized(src, isBottom)
    ensures Decide(src, width, height, isBottom) == SizePlan([src], src)
  {
  }

  /** An oversized source with a fitting request gets two resizes, the
      request and then the screen size. */
  lemma OversizedSourceFittingRequest(src: Size, width: Option<int>, height: Option<int>, isBottom: bool)
    requires Oversized(src, isBottom)
    requires !Oversized(Requested(src, width, height), isBottom)
    ensures Decide(src, width, height, isBottom).resizes == [Requested(src, width, height), Bound(isBottom)]
  {
  }

  /** What was requested is ignored when the source is too large. */
  lemma OversizedSourceIgnoresRequest(src: Size, width: Option<int>, height: Option<int>,
                                      width': Option<int>, height': Option<int>, isBottom: bool)
    requires Oversized(src, isBottom)
    ensures Decide(src, width, height, isBottom).final == Decide(src, width', height', isBottom).final
  {
  }
}
