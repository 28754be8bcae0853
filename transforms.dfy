/**
 * The attack operators that apply_attacks.py and apply_combined_attacks.py both define, and the
 * centre-box geometry their two different `crop_attack`s share. The bodies agree except that
 * apply_attacks.py re-opens the buffer in jpeg_compression and screenshot_simulation without
 * `.copy()`. That image decodes on first use: the blur, or the save of the result, which decodes
 * before it opens the output file. A decoding error then raises inside the same `try` and
 * leaves the output file untouched, exactly as an error inside the operator does.
 */
module Transforms {
  import opened Outcomes
  import opened Raster

  /**
   * An attack step as a value: the operator and its fixed parameter. Scale factors and
   * crop amounts are in percent (0.75 is Resize(75)); sigma is the noise's standard deviation.
   */
  datatype Step =
    | Jpeg(quality: nat)
    | Resize(percent: nat)
    | Crop(percent: nat)
    | Screenshot
    | Noise(sigma: nat)

  /**
   * The noise the random generator hands out: one field per catalog entry name, source image
   * name and step position. Any run of np.random.normal is one such function.
   */
  type Draws = (string, string, nat) -> Field

  /** The draws of one entry on one image, by step position. */
  function NoiseFor(draws: Draws, entry: string, image: string): nat -> Field
  {
    i => draws(entry, image, i)
  }

  /** jpeg_compression: a JPEG round trip at the given quality. */
  function JpegCompression(lib: Pil, img: Image, quality: nat): (r: Result<Image>)
    ensures Faithful(lib) && img.mode == RGB && r.Ok? ==> SameSize(r.value, img) && r.value.mode == RGB
  {
    lib.jpegRoundTrip(img, quality)
  }

  /** int(n * s) for the scale s = percent / 100: truncation, not rounding. */
  function Scaled(n: nat, percent: nat): (r: nat)
    ensures r * 100 <= n * percent < r * 100 + 100
  {
    n * percent / 100
  }

  /** The downscale of resize_attack: Lanczos to the truncated size (int(w * s), int(h * s)). */
  function Downscale(lib: Pil, img: Image, percent: nat): (r: Result<Image>)
    ensures Faithful(lib) && img.mode == RGB && r.Ok? ==>
      r.value.width * 100 <= img.width * percent < r.value.width * 100 + 100 &&
      r.value.height * 100 <= img.height * percent < r.value.height * 100 + 100 &&
      r.value.mode == RGB
  {
    lib.resize(img, Scaled(img.width, percent), Scaled(img.height, percent))
  }

  /** resize_attack: downscale, then Lanczos back up to the original size. */
  function ResizeAttack(lib: Pil, img: Image, percent: nat): (r: Result<Image>)
    ensures Faithful(lib) && img.mode == RGB && r.Ok? ==> SameSize(r.value, img) && r.value.mode == RGB
    ensures r.Ok? ==> Downscale(lib, img, percent).Ok?
  {
    match Downscale(lib, img, percent)
    case Err(e) => Err(e)
    case Ok(small) => lib.resize(small, img.width, img.height)
  }

  /**
   * The box both crop_attacks take: left = int(width * p / 100 / 2), top likewise,
   * right = width - left, bottom = height - top.
   */
  function CenterBox(width: nat, height: nat, percent: nat): (b: Box)
    ensures 0 <= b.left && 0 <= b.top
    ensures b.left * 200 <= width * percent < b.left * 200 + 200
    ensures b.top * 200 <= height * percent < b.top * 200 + 200
    ensures b.right == width - b.left && b.bottom == height - b.top
  {
    var left := width * percent / 200;
    var top := height * percent / 200;
    Box(left, top, width - left, height - top)
  }

  /** The box has its corners inside the image whenever PIL accepts it. */
  lemma CenterBoxInside(width: nat, height: nat, percent: nat)
    ensures var b := CenterBox(width, height, percent);
      0 <= b.left && 0 <= b.top && b.right <= width && b.bottom <= height
  {
  }

  /** An amount removed at the left edge: floor(n * p / 200) is less than half of n when p < 100. */
  lemma {:induction false} MarginBelowHalf(n: nat, percent: nat)
    requires percent < 100 && n >= 1
    ensures 2 * (n * percent / 200) < n
  {
    var m := n * percent / 200;
    assert m * 200 <= n * percent;
    assert n * percent <= n * 99 by {
      assert n * 99 - n * percent == n * (99 - percent);
    }
    assert 2 * m * 100 < n * 100;
  }

  /** Up to 100 %, the two margins together never exceed the side: right >= left. */
  lemma {:induction false} MarginsFit(n: nat, percent: nat)
    ensures percent <= 100 ==> 2 * (n * percent / 200) <= n
  {
    if percent <= 100 {
      var m := n * percent / 200;
      assert m * 200 <= n * percent;
      assert n * percent <= n * 100 by {
        assert n * 100 - n * percent == n * (100 - percent);
      }
    }
  }

  /** Up to 100 % the box is never inverted, so PIL accepts it. */
  lemma {:induction false} CenterBoxUpright(width: nat, height: nat, percent: nat)
    ensures var b := CenterBox(width, height, percent);
      percent <= 100 ==> b.left <= b.right && b.top <= b.bottom
  {
    MarginsFit(width, percent);
    MarginsFit(height, percent);
  }

  /**
   * For 0 <= p < 100 and a non-empty image the box is non-empty and inside the image:
   * 0 <= left < right <= width and 0 <= top < bottom <= height.
   */
  lemma {:induction false} CenterBoxNonEmpty(width: nat, height: nat, percent: nat)
    requires percent < 100 && width >= 1 && height >= 1
    ensures var b := CenterBox(width, height, percent);
      0 <= b.left < b.right <= width && 0 <= b.top < b.bottom <= height
  {
    MarginBelowHalf(width, percent);
    MarginBelowHalf(height, percent);
  }

  /** A 0 % crop takes the whole image. */
  lemma CenterBoxZero(width: nat, height: nat)
    ensures CenterBox(width, height, 0) == Box(0, 0, width, height)
  {
  }

  /** A larger percentage never removes less border (it need not remove more on small images). */
  lemma {:induction false} CenterBoxMonotone(width: nat, height: nat, p: nat, q: nat)
    requires p <= q
    ensures CenterBox(width, height, p).left <= CenterBox(width, height, q).left
    ensures CenterBox(width, height, p).top <= CenterBox(width, height, q).top
  {
    assert width * p <= width * q by {
      assert width * q - width * p == width * (q - p);
    }
    assert height * p <= height * q by {
      assert height * q - height * p == height * (q - p);
    }
  }

  /** screenshot_simulation: a PNG round trip followed by a Gaussian blur of radius 0.5. */
  function ScreenshotSimulation(lib: Pil, img: Image): (r: Result<Image>)
    ensures Faithful(lib) && img.mode == RGB && r.Ok? ==> SameSize(r.value, img) && r.value.mode == RGB
  {
    match lib.pngRoundTrip(img)
    case Err(e) => Err(e)
    case Ok(reencoded) => lib.gaussianBlur(reencoded, 0.5)
  }

  /**
   * gaussian_noise: add one draw to every channel, clip to [0, 255] and cast to uint8.
   * The draws come from np.random.normal(0, sigma, shape); here they are the field given.
   */
  function GaussianNoise(img: Image, field: Field): (r: Image)
    ensures SameSize(r, img) && r.mode == img.mode
    ensures forall y, x :: 0 <= y < r.height && 0 <= x < r.width ==> |r.rows[y][x]| == |img.rows[y][x]|
    ensures InByteRange(r)
  {
    Raw(img.width, img.height, img.mode,
      seq(img.height, y requires 0 <= y < img.height =>
        seq(img.width, x requires 0 <= x < img.width =>
          NoisyPixel(img.rows[y][x], field, y, x))))
  }

  /** The channels of one pixel at (y, x), each with its own draw. */
  function NoisyPixel(p: Pixel, field: Field, y: nat, x: nat): (q: Pixel)
    ensures |q| == |p|
    ensures forall c :: 0 <= c < |q| ==> 0 <= q[c] <= 255
  {
    var q := seq(|p|, c requires 0 <= c < |p| => NoisyChannel(p[c], field(y, x, c)));
    assert forall c :: 0 <= c < |q| ==> q[c] == NoisyChannel(p[c], field(y, x, c));
    q
  }

  /** With all draws zero (sigma = 0) the noise leaves an 8-bit image unchanged. */
  lemma NoiseFreeIsIdentity(img: Image, field: Field)
    requires InByteRange(img)
    requires forall y, x, c :: field(y, x, c) == 0.0
    ensures GaussianNoise(img, field) == img
  {
    var r := GaussianNoise(img, field);
    forall y | 0 <= y < img.height
      ensures r.rows[y] == img.rows[y]
    {
      forall x | 0 <= x < img.width
        ensures r.rows[y][x] == img.rows[y][x]
      {
        var p := img.rows[y][x];
        forall c | 0 <= c < |p|
          ensures r.rows[y][x][c] == p[c]
        {
          assert NoisyChannel(p[c], field(y, x, c)) == (p[c] as real).Floor;
        }
      }
    }
  }

  /** Image.open on the source file, then convert('RGB') unless the mode already is RGB. */
  function OpenAsRgb(lib: Pil, name: string): (r: Result<Image>)
    ensures Faithful(lib) && r.Ok? ==> r.value.mode == RGB
    ensures r.Ok? ==> lib.open(name).Ok?
    ensures Faithful(lib) && r.Ok? ==> lib.open(name).Ok? && SameSize(r.value, lib.open(name).value)
    ensures lib.open(name).Ok? && lib.open(name).value.mode == RGB ==> r == lib.open(name)
    ensures lib.open(name).Err? ==> r.Err?
  {
    match lib.open(name)
    case Err(e) => Err(e)
    case Ok(img) => if img.mode != RGB then lib.convert(img, RGB) else Ok(img)
  }
}
