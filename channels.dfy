/** The loop of `get_pixels_from_image` that splits RGB pixels into channels. */
module Channels {

  /** One pixel as `getdata()` yields it after `convert("RGB")`. */
  type Pixel = (int, int, int)

  /** Re-assembles pixels from three channel lists. */
  function Merge(r: seq<int>, g: seq<int>, b: seq<int>): (ps: seq<Pixel>)
    requires |r| == |g| == |b|
    ensures |ps| == |r|
  {
    seq(|r|, i requires 0 <= i < |r| => (r[i], g[i], b[i]))
  }

  /** Appends component 0, 1 and 2 of each pixel, in order, to `r`, `g`
      and `b`. Merging the three lists gives the pixels back. */
  method SplitChannels(pixels: seq<Pixel>) returns (r: seq<int>, g: seq<int>, b: seq<int>)
    ensures |r| == |pixels| && |g| == |pixels| && |b| == |pixels|
    ensures forall i :: 0 <= i < |pixels| ==>
      r[i] == pixels[i].0 && g[i] == pixels[i].1 && b[i] == pixels[i].2
    ensures Merge(r, g, b) == pixels
  {
    r, g, b := [], [], [];
    for k := 0 to |pixels|
      invariant |r| == k && |g| == k && |b| == k
      invariant forall i :: 0 <= i < k ==>
        r[i] == pixels[i].0 && g[i] == pixels[i].1 && b[i] == pixels[i].2
    {
      var p := pixels[k];
      r := r + [p.0];
      g := g + [p.1];
      b := b + [p.2];
    }
  }
}
