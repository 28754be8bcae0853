/**
 * Decoded images and the parts of the imaging library (PIL) that the attack scripts call.
 * Cropping and the noise clamp are modelled exactly; decoding, colour conversion, Lanczos
 * resampling, JPEG and PNG round trips, Gaussian blur and the encoder behind `save` are
 * library internals, passed in as the uninterpreted operations of a `Pil` value.
 */
module Raster {
  import opened Outcomes

  /** A PIL mode name such as "RGB", "L", "RGBA" or "P". */
  type Mode = string

  const RGB: Mode := "RGB"

  /** The channel values of one pixel, one per band of the mode. */
  type Pixel = seq<int>

  /** An image as decoded: `height` rows of `width` pixels. */
  datatype Raw = Raw(width: nat, height: nat, mode: Mode, rows: seq<seq<Pixel>>)

  predicate Shaped(r: Raw)
  {
    |r.rows| == r.height && forall y :: 0 <= y < |r.rows| ==> |r.rows[y]| == r.width
  }

  type Image = r: Raw | Shaped(r) witness Raw(0, 0, RGB, [])

  predicate SameSize(a: Image, b: Image)
  {
    a.width == b.width && a.height == b.height
  }

  /** What `save` is told besides the path: nothing, or a `quality=` keyword. */
  datatype SaveOptions = DefaultQuality | WithQuality(quality: nat)

  /**
   * The library operations the scripts use, left uninterpreted.
   *   open(name)               Image.open on the source file, including its decoding
   *   convert(img, mode)       img.convert(mode)
   *   resize(img, w, h)        img.resize((w, h), Image.LANCZOS)
   *   jpegRoundTrip(img, q)    save as JPEG at quality q into a buffer and open it again
   *   pngRoundTrip(img)        save as PNG into a buffer and open it again
   *   gaussianBlur(img, r)     img.filter(ImageFilter.GaussianBlur(radius=r))
   *   canSave(img, name, o)    whether the encoder that the extension of `name` selects accepts img
   */
  datatype Pil = Pil(
    open: string -> Result<Image>,
    convert: (Image, Mode) -> Result<Image>,
    resize: (Image, nat, nat) -> Result<Image>,
    jpegRoundTrip: (Image, nat) -> Result<Image>,
    pngRoundTrip: Image -> Result<Image>,
    gaussianBlur: (Image, real) -> Result<Image>,
    canSave: (Image, string, SaveOptions) -> bool
  )

  /**
   * The documented geometry of the library operations, whenever they do not raise:
   * conversion yields the requested mode at the same size, and on an RGB image resize yields
   * the requested size while the round trips and the blur keep its size, all in RGB. The
   * scripts only ever pass RGB images to those four; on other modes the encoders may change
   * the mode (a JPEG round trip of a mode "1" image comes back as "L").
   */
  ghost predicate Faithful(lib: Pil)
  {
    (forall img: Image, m :: lib.convert(img, m).Ok? ==>
      SameSize(lib.convert(img, m).value, img) && lib.convert(img, m).value.mode == m) &&
    (forall img: Image, w, h :: img.mode == RGB && lib.resize(img, w, h).Ok? ==>
      var out := lib.resize(img, w, h).value;
      out.width == w && out.height == h && out.mode == RGB) &&
    (forall img: Image, q :: img.mode == RGB && lib.jpegRoundTrip(img, q).Ok? ==>
      SameSize(lib.jpegRoundTrip(img, q).value, img) && lib.jpegRoundTrip(img, q).value.mode == RGB) &&
    (forall img: Image :: img.mode == RGB && lib.pngRoundTrip(img).Ok? ==>
      SameSize(lib.pngRoundTrip(img).value, img) && lib.pngRoundTrip(img).value.mode == RGB) &&
    (forall img: Image, radius :: img.mode == RGB && lib.gaussianBlur(img, radius).Ok? ==>
      SameSize(lib.gaussianBlur(img, radius).value, img) && lib.gaussianBlur(img, radius).value.mode == RGB)
  }

  /** A crop box (left, upper, right, lower) in pixel coordinates, right and lower exclusive. */
  datatype Box = Box(left: int, top: int, right: int, bottom: int)

  /**
   * Image.crop(box) for a box whose corners lie inside the image: PIL refuses a box whose
   * right edge lies left of its left edge, or whose lower edge lies above its upper edge,
   * and otherwise returns the pixels inside the box.
   */
  function CropToBox(img: Image, box: Box): (r: Result<Image>)
    requires 0 <= box.left && 0 <= box.top && box.right <= img.width && box.bottom <= img.height
    ensures r.Ok? <==> box.left <= box.right && box.top <= box.bottom
    ensures r.Ok? ==>
      r.value.width == box.right - box.left && r.value.height == box.bottom - box.top &&
      r.value.mode == img.mode
    ensures r.Ok? ==> forall y, x :: 0 <= y < r.value.height && 0 <= x < r.value.width ==>
      r.value.rows[y][x] == img.rows[box.top + y][box.left + x]
  {
    if box.right < box.left then Err("Coordinate 'right' is less than 'left'")
    else if box.bottom < box.top then Err("Coordinate 'lower' is less than 'upper'")
    else
      var w, h := box.right - box.left, box.bottom - box.top;
      var rows := seq(h, y requires 0 <= y < h => img.rows[box.top + y][box.left..box.right]);
      Ok(Raw(w, h, img.mode, rows))
  }

  /** One noise draw per row, column and channel. */
  type Field = (nat, nat, nat) -> real

  /** np.clip(v, 0, 255). */
  function Clip(v: real): (r: real)
    ensures 0.0 <= r <= 255.0
    ensures 0.0 <= v <= 255.0 ==> r == v
    ensures v < 0.0 ==> r == 0.0
    ensures v > 255.0 ==> r == 255.0
  {
    if v < 0.0 then 0.0 else if v > 255.0 then 255.0 else v
  }

  /** One channel plus its draw, clipped, then cast with astype(np.uint8) (truncation). */
  function NoisyChannel(c: int, d: real): (r: int)
    ensures 0 <= r <= 255
  {
    Clip(c as real + d).Floor
  }

  /** Every channel of every pixel lies in the 8-bit range. */
  predicate InByteRange(img: Image)
  {
    forall y, x, c :: 0 <= y < img.height && 0 <= x < img.width && 0 <= c < |img.rows[y][x]| ==>
      0 <= img.rows[y][x][c] <= 255
  }
}
