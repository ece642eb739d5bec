/**
 * `convert`: sizing, resizing, placing, splitting the pixels and emitting
 * the source, in the order the converter performs them. The image library
 * stays outside: the source size is a parameter (absent when the file does
 * not exist), resizes are returned as a log, and the pixels read after the
 * resizes are a parameter.
 */
module Convert {
  import opened Wrappers
  import opened Screen
  import opened Sizing
  import opened Position
  import opened Channels
  import opened Emit

  datatype ConvertError =
    /** The image size could not be read: `get_image_size` returned `None`. */
    | NoImageSize

  datatype Conversion = Conversion(
    resizes: seq<Size>,  // the `resize_image` calls, in order
    x: int, y: int, width: int, height: int,
    red: seq<int>, green: seq<int>, blue: seq<int>,
    code: string)

  /**
   * The resizing steps of `convert`: the request is defaulted from the
   * source size, then the optional and the automatic resize are issued in
   * turn, each updating both the image size and the request. Afterwards
   * the request always equals the image size.
   */
  method FitToScreen(source: Size, width: Option<int>, height: Option<int>, isBottom: bool)
    returns (resizes: seq<Size>, image: Size, request: Size)
    ensures var plan := Decide(source, width, height, isBottom);
      resizes == plan.resizes && image == plan.final
    ensures request == image
  {
    var imgWidth := source.width;
    var imgHeight := source.height;
    var w := OrDefault(width, imgWidth);
    var h := OrDefault(height, imgHeight);

    var isLargerImg := Oversized(Size(imgWidth, imgHeight), isBottom);
    var isLargerInp := Oversized(Size(w, h), isBottom);

    resizes := [];
    // optional resize
    if !isLargerInp && (w != 0 || h != 0) {
      resizes := resizes + [Size(if w != 0 then w else imgWidth, if h != 0 then h else imgHeight)];
      imgWidth := if w != 0 then w else imgWidth;
      imgHeight := if h != 0 then h else imgHeight;
      w := if w != 0 then w else imgWidth;
      h := if h != 0 then h else imgHeight;
    }
    // auto resize
    if isLargerImg || isLargerInp {
      resizes := resizes + [Bound(isBottom)];
      imgWidth := BoundWidth(isBottom);
      imgHeight := ScreenHeight;
      w := BoundWidth(isBottom);
      h := ScreenHeight;
    }
    image := Size(imgWidth, imgHeight);
    request := Size(w, h);
  }

  /**
   * Lines 159-191 of `convert`: the resizes, then the drawing position
   * computed on the resized image, with a non-zero `x` or `y` taking its
   * place, and the final working size.
   */
  method Layout(source: Size, x: Option<int>, y: Option<int>,
                width: Option<int>, height: Option<int>, isBottom: bool)
    returns (resizes: seq<Size>, position: (int, int), final: Size)
    ensures var plan := Decide(source, width, height, isBottom);
      && resizes == plan.resizes
      && final == plan.final
      && position == Place(plan.final, isBottom, x, y)
  {
    var image, request;
    resizes, image, request := FitToScreen(source, width, height, isBottom);

    var optimal := CalcPosition(image.width, image.height, isBottom);
    position := (OrDefault(x, optimal.0), OrDefault(y, optimal.1));

    var w := if request.width == 0 then image.width else request.width;
    var h := if request.height == 0 then image.height else request.height;
    final := Size(w, h);
  }

  /**
   * `convert` up to handing the source to the output writer. Fails, as the
   * converter does, when the image size cannot be read.
   */
  method Convert(size: Option<Size>, x: Option<int>, y: Option<int>,
                 width: Option<int>, height: Option<int>, isBottom: bool,
                 pixels: seq<Pixel>)
    returns (result: Result<Conversion, ConvertError>)
    ensures size.None? <==> result == Failure(NoImageSize)
    ensures size.Some? ==> result.Success?
    ensures result.Success? ==> (
      size.Some? &&
      var plan := Decide(size.value, width, height, isBottom);
      && result.value.resizes == plan.resizes
      && Size(result.value.width, result.value.height) == plan.final
      && (result.value.x, result.value.y) == Place(plan.final, isBottom, x, y))
    ensures result.Success? ==>
      var c := result.value;
      && |c.red| == |pixels| && |c.green| == |pixels| && |c.blue| == |pixels|
      && forall i :: 0 <= i < |pixels| ==> (c.red[i], c.green[i], c.blue[i]) == pixels[i]
    ensures result.Success? ==>
      var c := result.value;
      c.code == GenerateCode(c.x, c.y, c.width, c.height, isBottom, (c.red, c.green, c.blue))
  {
    if size.None? {
      return Failure(NoImageSize);
    }
    var resizes, position, final := Layout(size.value, x, y, width, height, isBottom);
    var red, green, blue := SplitChannels(pixels);
    var code := GenerateCode(position.0, position.1, final.width, final.height, isBottom, (red, green, blue));
    return Success(Conversion(resizes, position.0, position.1, final.width, final.height, red, green, blue, code));
  }
}
