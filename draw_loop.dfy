/**
 * What the emitted C++ `draw_image` does at run time: the nested `yy`/`xx`
 * loops with the running counter `nap` that index the channel arrays.
 */
module DrawLoop {
  import opened Channels

  datatype Color = Color(r: int, g: int, b: int, a: int)

  /** One inner-loop step: the loop variables, the counter used, and the
      `DrawPixel(px, py, color)` call made. */
  datatype Step = Step(xx: int, yy: int, nap: int, px: int, py: int, color: Color)

  lemma RowBefore(yy: int, height: int, width: int)
    requires 0 <= yy < height && 0 <= width
    ensures (yy + 1) * width <= height * width && yy * width + width == (yy + 1) * width
  {
  }

  /** The counter value at loop position `(xx, yy)` in row-major order. */
  function Index(width: int, xx: int, yy: int): int {
    yy * width + xx
  }

  lemma MulMonotone(a: int, b: int, width: int)
    requires a <= b && 0 <= width
    ensures a * width <= b * width
  {
    assert (b - a) * width >= 0;
    assert b * width - a * width == (b - a) * width;
  }

  /** Rows lie one after another: row `yy` ends where row `yy + 1` begins. */
  lemma {:induction false} RowEndsBeforeLater(width: int, xx: int, yy: int, yy': int)
    requires 0 <= xx < width && yy < yy'
    ensures Index(width, xx, yy) < yy' * width
  {
    MulMonotone(yy + 1, yy', width);
    assert (yy + 1) * width == yy * width + width;
  }

  /** Distinct loop positions give distinct counter values. */
  lemma RowMajorIndexUnique(width: int, xx: int, yy: int, xx': int, yy': int)
    requires 0 <= xx < width && 0 <= xx' < width
    requires Index(width, xx, yy) == Index(width, xx', yy')
    ensures xx == xx' && yy == yy'
  {
    if yy < yy' {
      RowEndsBeforeLater(width, xx, yy, yy');
    } else if yy' < yy {
      RowEndsBeforeLater(width, xx', yy', yy);
    }
  }

  lemma GridIndexInRange(width: int, height: int, xx: int, yy: int)
    requires 0 <= xx < width && 0 <= yy < height
    ensures 0 <= Index(width, xx, yy) < width * height
  {
    RowBefore(yy, height, width);
    assert 0 <= yy * width by { MulMonotone(0, yy, width); }
  }

  /** How often a C++ `for (int i = 0; i < n; i++)` loop runs its body. */
  function Iterations(n: int): nat {
    if n > 0 then n else 0
  }

  /** The number of inner-loop steps: `width * height`, or none when
      either dimension is not positive. */
  function StepCount(width: int, height: int): nat {
    Iterations(height) * Iterations(width)
  }

  /**
   * Runs the emitted loops. Step `k` uses counter value `k`, which is
   * `yy * width + xx` for its loop variables, so every index below
   * `width * height` is used once, in row-major order, and the pixel drawn
   * at `(x + xx, y + yy)` has the colour stored at that index. With a
   * dimension that is not positive nothing is drawn.
   */
  method DrawImage(x: int, y: int, width: int, height: int, r: seq<int>, g: seq<int>, b: seq<int>)
    returns (trace: seq<Step>)
    requires StepCount(width, height) <= |r| && StepCount(width, height) <= |g| && StepCount(width, height) <= |b|
    ensures |trace| == StepCount(width, height)
    ensures forall k :: 0 <= k < |trace| ==>
      var s := trace[k];
      && s.nap == k && s.nap == Index(width, s.xx, s.yy)
      && 0 <= s.xx < width && 0 <= s.yy < height
      && s.px == x + s.xx && s.py == y + s.yy
      && s.color == Color(r[k], g[k], b[k], 255)
    ensures forall xx, yy :: 0 <= xx < width && 0 <= yy < height ==>
      var k := Index(width, xx, yy);
      0 <= k < |trace| && trace[k].xx == xx && trace[k].yy == yy
  {
    ghost var rows, cols := Iterations(height), Iterations(width);
    trace := [];
    var nap := 0;
    var yy := 0;
    while yy < height
      invariant 0 <= yy <= rows
      invariant nap == yy * cols && |trace| == nap
      invariant forall k :: 0 <= k < |trace| ==>
        var s := trace[k];
        && s.nap == k && s.nap == Index(width, s.xx, s.yy)
        && 0 <= s.xx < width && 0 <= s.yy < yy
        && s.px == x + s.xx && s.py == y + s.yy
        && s.color == Color(r[k], g[k], b[k], 255)
    {
      RowBefore(yy, rows, cols);
      var xx := 0;
      while xx < width
        invariant 0 <= xx <= cols
        invariant nap == yy * cols + xx && |trace| == nap
        invariant forall k :: 0 <= k < |trace| ==>
          var s := trace[k];
          && s.nap == k && s.nap == Index(width, s.xx, s.yy)
          && 0 <= s.xx < width && 0 <= s.yy <= yy
          && s.px == x + s.xx && s.py == y + s.yy
          && s.color == Color(r[k], g[k], b[k], 255)
      {
        assert cols == width;
        trace := trace + [Step(xx, yy, nap, xx + x, yy + y, Color(r[nap], g[nap], b[nap], 255))];
        nap := nap + 1;
        xx := xx + 1;
      }
      yy := yy + 1;
    }
    assert yy == rows;
    forall xx, yy | 0 <= xx < width && 0 <= yy < height
      ensures var k := Index(width, xx, yy);
        0 <= k < |trace| && trace[k].xx == xx && trace[k].yy == yy
    {
      GridIndexInRange(width, height, xx, yy);
      var s := trace[Index(width, xx, yy)];
      RowMajorIndexUnique(width, xx, yy, s.xx, s.yy);
    }
  }

  /**
   * The emitted loop run over the channel lists split from a row-major
   * `width` by `height` pixel list: the pixel of the image at column `xx`
   * and row `yy` is drawn, opaque, at `(x + xx, y + yy)`.
   */
  method DrawSplitImage(x: int, y: int, width: int, height: int, pixels: seq<Pixel>)
    returns (trace: seq<Step>)
    requires |pixels| == StepCount(width, height)
    ensures |trace| == |pixels|
    ensures forall xx, yy :: 0 <= xx < width && 0 <= yy < height ==>
      var k := Index(width, xx, yy);
      0 <= k < |trace| &&
      trace[k] == Step(xx, yy, k, x + xx, y + yy, Color(pixels[k].0, pixels[k].1, pixels[k].2, 255))
  {
    var r, g, b := SplitChannels(pixels);
    trace := DrawImage(x, y, width, height, r, g, b);
  }
}
