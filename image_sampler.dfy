/**
 * The image sampler of composables/useImageSampler.ts: point lookup and
 * bilinear sampling of a loaded RGBA raster by UV coordinate, and the flags
 * that guard the asynchronous load.
 */
module ImageSampler {
  import opened Wrappers
  import opened Linearly

  /** A decoded raster: row-major 8-bit RGBA samples, origin at the top left. */
  datatype Image = Image(width: int, height: int, data: seq<int>)

  /** What a browser `ImageData` guarantees about its shape and its bytes. */
  predicate ValidImage(img: Image)
  {
    && img.width >= 1
    && img.height >= 1
    && |img.data| == 4 * img.width * img.height
    && forall i :: 0 <= i < |img.data| ==> 0 <= img.data[i] <= 255
  }

  const Black: Vec3 := Vec3(0.0, 0.0, 0.0)

  /** Each channel lies in `[0, 1]`. */
  predicate InUnitRange(c: Vec3)
  {
    0.0 <= c.x <= 1.0 && 0.0 <= c.y <= 1.0 && 0.0 <= c.z <= 1.0
  }

  /** `data[i] ?? 0`: a byte of the buffer, or 0 past its end. */
  function ByteAt(data: seq<int>, i: int): int
  {
    if 0 <= i < |data| then data[i] else 0
  }

  /** The column and row `getPixelRGB` reads: the position clamped to the image, then floored. */
  function PixelCoords(img: Image, pos: Vec2): Vec2
    requires ValidImage(img)
  {
    Floor2(Clamp2(pos, Zero2, Vec2((img.width - 1) as real, (img.height - 1) as real)))
  }

  /** The flat index of the red byte of the pixel `getPixelRGB` reads. */
  function PixelIndex(img: Image, pos: Vec2): int
    requires ValidImage(img)
  {
    var f := PixelCoords(img, pos);
    (f.y.Floor * img.width + f.x.Floor) * 4
  }

  /** `getPixelRGB`: the normalised RGB of the pixel under `pos`, black when no image is loaded. */
  function GetPixelRGB(image: Option<Image>, pos: Vec2): (rgb: Vec3)
    requires image.Some? ==> ValidImage(image.value)
    ensures image.None? ==> rgb == Black
    ensures InUnitRange(rgb)
  {
    match image
    case None => Black
    case Some(img) =>
      var index := PixelIndex(img, pos);
      Vec3(ByteAt(img.data, index) as real / 255.0,
           ByteAt(img.data, index + 1) as real / 255.0,
           ByteAt(img.data, index + 2) as real / 255.0)
  }

  /** The pixel at column `col` and row `row`, read straight from the buffer. */
  function Pixel(img: Image, col: int, row: int): Vec3
    requires ValidImage(img)
    requires 0 <= col < img.width && 0 <= row < img.height
  {
    RgbaIndexBound(img.width, img.height, col, row);
    var i := (row * img.width + col) * 4;
    Vec3(img.data[i] as real / 255.0, img.data[i + 1] as real / 255.0, img.data[i + 2] as real / 255.0)
  }

  /** The four bytes of pixel (col, row) lie inside a `w` by `h` RGBA buffer. */
  lemma RgbaIndexBound(w: int, h: int, col: int, row: int)
    requires 0 <= col < w && 0 <= row < h
    ensures 0 <= (row * w + col) * 4
    ensures (row * w + col) * 4 + 3 < 4 * w * h
  {
    assert row * w <= (h - 1) * w by {
      assert (h - 1) * w - row * w == (h - 1 - row) * w;
    }
    assert (h - 1) * w + w == h * w;
  }

  /**
   * After clamping and flooring, the pixel is inside the image, its index and
   * the two bytes after it are inside the buffer, so the `?? 0` fallback is
   * never taken and `getPixelRGB` reads exactly that pixel.
   */
  lemma PixelIndexInBounds(img: Image, pos: Vec2)
    requires ValidImage(img)
    ensures var f := PixelCoords(img, pos);
      && 0 <= f.x.Floor < img.width && 0 <= f.y.Floor < img.height
      && 0 <= PixelIndex(img, pos) && PixelIndex(img, pos) + 2 < |img.data|
      && GetPixelRGB(Some(img), pos) == Pixel(img, f.x.Floor, f.y.Floor)
  {
    var f := PixelCoords(img, pos);
    RgbaIndexBound(img.width, img.height, f.x.Floor, f.y.Floor);
  }

  /** `getPixelRGB` at a pixel's own integer coordinates reads that pixel. */
  lemma GetPixelAtGrid(img: Image, col: int, row: int)
    requires ValidImage(img)
    requires 0 <= col < img.width && 0 <= row < img.height
    ensures GetPixelRGB(Some(img), Vec2(col as real, row as real)) == Pixel(img, col, row)
  {
    PixelIndexInBounds(img, Vec2(col as real, row as real));
  }

  /** `vec2.multiply(uv, [width - 1, height - 1])`, UV scaled to pixel space: u = 0..1 spans the columns, v = 0..1 the rows from row 0. */
  function PixelPos(img: Image, uv: Vec2): Vec2
  {
    Vec2(Scale(uv.x, img.width), Scale(uv.y, img.height))
  }

  /** One UV component multiplied by one less than the pixel count along its axis. */
  function Scale(u: real, n: int): real
  {
    u * (n - 1) as real
  }

  /** The four neighbours blended by bilinear sampling. */
  datatype Corners = Corners(topLeft: Vec3, topRight: Vec3, bottomLeft: Vec3, bottomRight: Vec3)

  /** The scaled position floored to whole pixels; the top-left neighbour. */
  function FloorPos(img: Image, uv: Vec2): Vec2 { Floor2(PixelPos(img, uv)) }

  /** The floored position moved one pixel right and down, clamped to the image; the bottom-right neighbour. */
  function CeilPos(img: Image, uv: Vec2): Vec2
    requires ValidImage(img)
  {
    Clamp2(Add2(FloorPos(img, uv), Vec2(1.0, 1.0)), Zero2, Vec2((img.width - 1) as real, (img.height - 1) as real))
  }

  /** The fractional offset of the sample inside its pixel cell. */
  function Frac(img: Image, uv: Vec2): Vec2 { Sub2(PixelPos(img, uv), FloorPos(img, uv)) }

  function CornersAt(img: Image, uv: Vec2): Corners
    requires ValidImage(img)
  {
    var fl := FloorPos(img, uv);
    var ce := CeilPos(img, uv);
    Corners(GetPixelRGB(Some(img), fl), GetPixelRGB(Some(img), Vec2(ce.x, fl.y)),
            GetPixelRGB(Some(img), Vec2(fl.x, ce.y)), GetPixelRGB(Some(img), ce))
  }

  /** Horizontal blend of each pair of corners, then vertical blend of the two results. */
  function Bilinear(c: Corners, f: Vec2): Vec3
  {
    Lerp3(Lerp3(c.topLeft, c.topRight, f.x), Lerp3(c.bottomLeft, c.bottomRight, f.x), f.y)
  }

  /** `sampleRGB`: nearest-pixel or bilinear sampling by UV, black when no image is loaded. */
  function SampleRGB(image: Option<Image>, interpolate: bool, uv: Vec2): (rgb: Vec3)
    requires image.Some? ==> ValidImage(image.value)
    ensures image.None? ==> rgb == Black
  {
    match image
    case None => Black
    case Some(img) =>
      if !interpolate then GetPixelRGB(image, Round2(PixelPos(img, uv)))
      else Bilinear(CornersAt(img, uv), Frac(img, uv))
  }

  /** The fractional offset has both components in `[0, 1)` and the clamped neighbour is inside the image. */
  lemma FracAndCeilInRange(img: Image, uv: Vec2)
    requires ValidImage(img)
    ensures 0.0 <= Frac(img, uv).x < 1.0 && 0.0 <= Frac(img, uv).y < 1.0
    ensures 0.0 <= CeilPos(img, uv).x <= (img.width - 1) as real
    ensures 0.0 <= CeilPos(img, uv).y <= (img.height - 1) as real
  {
  }

  /** A lerp with `t` in `[0, 1]` stays between its two end points. */
  lemma LerpBetween(a: real, b: real, t: real)
    requires 0.0 <= t <= 1.0
    ensures Min(a, b) <= Lerp(a, b, t) <= Max(a, b)
  {
    var d := b - a;
    NonNegProduct(if d >= 0.0 then d else -d, t);
    NonNegProduct(if d >= 0.0 then d else -d, 1.0 - t);
    assert d - d * t == d * (1.0 - t);
  }

  function Min4(a: real, b: real, c: real, d: real): real { Min(Min(a, b), Min(c, d)) }
  function Max4(a: real, b: real, c: real, d: real): real { Max(Max(a, b), Max(c, d)) }

  /** One channel of two nested lerps stays between the least and the greatest of the four inputs. */
  lemma NestedLerpBetween(tl: real, tr: real, bl: real, br: real, fx: real, fy: real)
    requires 0.0 <= fx <= 1.0 && 0.0 <= fy <= 1.0
    ensures Min4(tl, tr, bl, br) <= Lerp(Lerp(tl, tr, fx), Lerp(bl, br, fx), fy) <= Max4(tl, tr, bl, br)
  {
    LerpBetween(tl, tr, fx);
    LerpBetween(bl, br, fx);
    LerpBetween(Lerp(tl, tr, fx), Lerp(bl, br, fx), fy);
  }

  /** Each channel of a bilinear blend lies between the least and the greatest of its four corners. */
  lemma BilinearWithinCorners(c: Corners, f: Vec2)
    requires 0.0 <= f.x <= 1.0 && 0.0 <= f.y <= 1.0
    ensures var r := Bilinear(c, f);
      && Min4(c.topLeft.x, c.topRight.x, c.bottomLeft.x, c.bottomRight.x) <= r.x
      && r.x <= Max4(c.topLeft.x, c.topRight.x, c.bottomLeft.x, c.bottomRight.x)
      && Min4(c.topLeft.y, c.topRight.y, c.bottomLeft.y, c.bottomRight.y) <= r.y
      && r.y <= Max4(c.topLeft.y, c.topRight.y, c.bottomLeft.y, c.bottomRight.y)
      && Min4(c.topLeft.z, c.topRight.z, c.bottomLeft.z, c.bottomRight.z) <= r.z
      && r.z <= Max4(c.topLeft.z, c.topRight.z, c.bottomLeft.z, c.bottomRight.z)
  {
    NestedLerpBetween(c.topLeft.x, c.topRight.x, c.bottomLeft.x, c.bottomRight.x, f.x, f.y);
    NestedLerpBetween(c.topLeft.y, c.topRight.y, c.bottomLeft.y, c.bottomRight.y, f.x, f.y);
    NestedLerpBetween(c.topLeft.z, c.topRight.z, c.bottomLeft.z, c.bottomRight.z, f.x, f.y);
  }

  /** The horizontal-then-vertical blend is the textbook weighted average of the four corners. */
  lemma BilinearIsWeightedAverage(c: Corners, f: Vec2)
    ensures var r := Bilinear(c, f);
      && r.x == Weighted(c.topLeft.x, c.topRight.x, c.bottomLeft.x, c.bottomRight.x, f)
      && r.y == Weighted(c.topLeft.y, c.topRight.y, c.bottomLeft.y, c.bottomRight.y, f)
      && r.z == Weighted(c.topLeft.z, c.topRight.z, c.bottomLeft.z, c.bottomRight.z, f)
  {
    WeightedChannel(c.topLeft.x, c.topRight.x, c.bottomLeft.x, c.bottomRight.x, f);
    WeightedChannel(c.topLeft.y, c.topRight.y, c.bottomLeft.y, c.bottomRight.y, f);
    WeightedChannel(c.topLeft.z, c.topRight.z, c.bottomLeft.z, c.bottomRight.z, f);
  }

  /** The bilinear weights: each corner weighted by the area of the opposite sub-rectangle. */
  function Weighted(tl: real, tr: real, bl: real, br: real, f: Vec2): real
  {
    (1.0 - f.x) * (1.0 - f.y) * tl + f.x * (1.0 - f.y) * tr + (1.0 - f.x) * f.y * bl + f.x * f.y * br
  }

  lemma WeightedChannel(tl: real, tr: real, bl: real, br: real, f: Vec2)
    ensures Lerp(Lerp(tl, tr, f.x), Lerp(bl, br, f.x), f.y) == Weighted(tl, tr, bl, br, f)
  {
    var top := tl + (tr - tl) * f.x;
    var bottom := bl + (br - bl) * f.x;
    assert top == (1.0 - f.x) * tl + f.x * tr;
    assert bottom == (1.0 - f.x) * bl + f.x * br;
    assert top + (bottom - top) * f.y == (1.0 - f.y) * top + f.y * bottom;
  }

  /** Every sample, nearest or bilinear, loaded or not, has its channels in `[0, 1]`. */
  lemma SampleInUnitRange(image: Option<Image>, interpolate: bool, uv: Vec2)
    requires image.Some? ==> ValidImage(image.value)
    ensures InUnitRange(SampleRGB(image, interpolate, uv))
  {
    if image.Some? && interpolate {
      var img := image.value;
      FracAndCeilInRange(img, uv);
      BilinearWithinCorners(CornersAt(img, uv), Frac(img, uv));
    }
  }

  /**
   * Without interpolation, a UV inside the unit square reads the pixel whose
   * centre is nearest to the scaled position (halves rounded up).
   */
  lemma NearestIsClosestPixel(img: Image, uv: Vec2)
    requires ValidImage(img)
    requires 0.0 <= uv.x <= 1.0 && 0.0 <= uv.y <= 1.0
    ensures var p := PixelPos(img, uv);
      var col := (p.x + 0.5).Floor;
      var row := (p.y + 0.5).Floor;
      && 0 <= col < img.width && 0 <= row < img.height
      && col as real - 0.5 <= p.x < col as real + 0.5
      && row as real - 0.5 <= p.y < row as real + 0.5
      && SampleRGB(Some(img), false, uv) == Pixel(img, col, row)
  {
    var p := PixelPos(img, uv);
    PixelPosInImage(img, uv);
    var col := RoundWithin(p.x, img.width);
    var row := RoundWithin(p.y, img.height);
    assert Round2(p) == Vec2(col as real, row as real);
    GetPixelAtGrid(img, col, row);
  }

  /** A UV inside the unit square scales to a position inside the image. */
  lemma PixelPosInImage(img: Image, uv: Vec2)
    requires img.width >= 1 && img.height >= 1
    requires 0.0 <= uv.x <= 1.0 && 0.0 <= uv.y <= 1.0
    ensures 0.0 <= PixelPos(img, uv).x <= (img.width - 1) as real
    ensures 0.0 <= PixelPos(img, uv).y <= (img.height - 1) as real
  {
    ScaledWithin(uv.x, img.width);
    ScaledWithin(uv.y, img.height);
  }

  /** Rounding a number of `[0, n - 1]` gives the nearest of the indices `0 .. n - 1`. */
  lemma RoundWithin(a: real, n: int) returns (k: int)
    requires 0.0 <= a <= (n - 1) as real
    ensures k == (a + 0.5).Floor && Round(a) == k as real
    ensures 0 <= k < n
    ensures k as real - 0.5 <= a < k as real + 0.5
  {
    k := (a + 0.5).Floor;
  }

  /** A coordinate in `[0, 1]` scaled by `n - 1` lies in `[0, n - 1]`. */
  lemma ScaledWithin(u: real, n: int)
    requires 0.0 <= u <= 1.0 && 1 <= n
    ensures 0.0 <= Scale(u, n) <= (n - 1) as real
  {
    var m := (n - 1) as real;
    NonNegProduct(u, m);
    NonNegProduct(1.0 - u, m);
    assert m - u * m == (1.0 - u) * m;
  }

  /** With zero offsets the bilinear blend is its top-left corner. */
  lemma BilinearAtZero(c: Corners)
    ensures Bilinear(c, Zero2) == c.topLeft
  {
  }

  /** Rounding a whole number leaves it unchanged. */
  lemma RoundWhole(a: real)
    requires a == Floor(a)
    ensures Round(a) == a
  {
    assert a.Floor as real + 0.5 == a + 0.5;
    assert (a + 0.5).Floor == a.Floor;
  }

  /**
   * On the pixel grid, bilinear sampling degenerates to point sampling: it
   * equals nearest sampling and `getPixelRGB` at the floored position.
   */
  lemma BilinearOnGrid(img: Image, uv: Vec2)
    requires ValidImage(img)
    requires PixelPos(img, uv) == FloorPos(img, uv)
    ensures SampleRGB(Some(img), true, uv) == GetPixelRGB(Some(img), FloorPos(img, uv))
    ensures SampleRGB(Some(img), true, uv) == SampleRGB(Some(img), false, uv)
  {
    var p := PixelPos(img, uv);
    assert Frac(img, uv) == Zero2;
    BilinearAtZero(CornersAt(img, uv));
    RoundWhole(p.x);
    RoundWhole(p.y);
    assert Round2(p) == FloorPos(img, uv);
  }

  /** The result of the asynchronous fetch and decode that `loadImage` waits for. */
  datatype LoadOutcome = Decoded(image: Image) | Failed(message: string)

  /** The sampler's reactive state (composables/useImageSampler.ts:23-29). */
  class Sampler {
    const interpolate: bool
    var imageData: Option<Image>
    var isLoaded: bool
    var isLoading: bool
    var error: Option<string>

    /** A loaded raster is well formed, and `isLoaded` says whether there is one. */
    ghost predicate Valid()
      reads this
    {
      && (imageData.Some? ==> ValidImage(imageData.value))
      && isLoaded == imageData.Some?
      && (isLoading ==> error == None)
    }

    constructor (interpolate: bool := true)
      ensures Valid() && this.interpolate == interpolate
      ensures imageData == None && !isLoaded && !isLoading && error == None
    {
      this.interpolate := interpolate;
      imageData := None;
      isLoaded := false;
      isLoading := false;
      error := None;
    }

    /** `sampleRGB` on the sampler's current raster, with the interpolation mode it was created with. */
    function Sample(uv: Vec2): (rgb: Vec3)
      reads this
      requires Valid()
      ensures imageData.None? ==> rgb == Black
      ensures InUnitRange(rgb)
      ensures rgb == SampleRGB(imageData, interpolate, uv)
    {
      SampleInUnitRange(imageData, interpolate, uv);
      SampleRGB(imageData, interpolate, uv)
    }

    /**
     * The part of `loadImage` before its `await`: nothing happens while a load
     * is in flight; otherwise the load starts and the previous error is cleared.
     */
    method LoadImage() returns (started: bool)
      requires Valid()
      modifies this`isLoading, this`error
      ensures Valid()
      ensures started == !old(isLoading)
      ensures started ==> isLoading && error == None
      ensures !started ==> isLoading == old(isLoading) && error == old(error)
    {
      if isLoading {
        return false;
      }
      isLoading := true;
      error := None;
      started := true;
    }

    /**
     * The part of `loadImage` after its `await`: a decoded raster replaces the
     * stored one and marks the sampler loaded; a failure records its message
     * and keeps the previous raster; either way the load is no longer in flight.
     */
    method Settle(outcome: LoadOutcome)
      requires Valid() && isLoading
      requires outcome.Decoded? ==> ValidImage(outcome.image)
      modifies this`imageData, this`isLoaded, this`isLoading, this`error
      ensures Valid() && !isLoading
      ensures outcome.Decoded? ==> imageData == Some(outcome.image) && isLoaded && error == None
      ensures outcome.Failed? ==>
        && imageData == old(imageData) && isLoaded == old(isLoaded)
        && error == Some(outcome.message)
    {
      match outcome {
        case Decoded(image) =>
          imageData := Some(image);
          isLoaded := true;
        case Failed(message) =>
          error := Some(message);
      }
      isLoading := false;
    }
  }
}
