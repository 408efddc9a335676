/**
  Frames of an animation and the whole-frame transforms of GifProcessor:
  rectangular crop, resize and the circular mask.
 */
module Frames {
  import opened Types

  /** An RGBA pixel. */
  datatype Rgba = Rgba(r: int, g: int, b: int, a: int)

  /** The fully transparent pixel: the background of the circular mask, and the
      zero value a crop box yields where it reaches outside its frame. */
  const Transparent: Rgba := Rgba(0, 0, 0, 0)

  /** A frame of `width` by `height` pixels; `rows[y][x]` is the pixel in column x of row y. */
  datatype Frame = Frame(width: nat, height: nat, rows: seq<seq<Rgba>>) {

    predicate Valid() {
      |rows| == height && forall y :: 0 <= y < |rows| ==> |rows[y]| == width
    }

    predicate Contains(x: int, y: int) {
      0 <= x < width && 0 <= y < height
    }

    function At(x: int, y: int): Rgba
      requires Valid() && Contains(x, y)
    {
      rows[y][x]
    }
  }

  /** Every frame is well formed and has size (w, h). */
  predicate SameSize(fs: seq<Frame>, w: nat, h: nat) {
    forall k :: 0 <= k < |fs| ==> fs[k].Valid() && fs[k].width == w && fs[k].height == h
  }

  /** A non-empty sequence of frames that all share the size of the first. */
  predicate Uniform(fs: seq<Frame>) {
    |fs| >= 1 && SameSize(fs, fs[0].width, fs[0].height)
  }

  /** Two well-formed frames of the same size with the same pixels are the same frame. */
  lemma FrameExtensional(a: Frame, b: Frame)
    requires a.Valid() && b.Valid() && a.width == b.width && a.height == b.height
    requires forall x, y :: a.Contains(x, y) ==> a.At(x, y) == b.At(x, y)
    ensures a == b
  {
    forall y | 0 <= y < a.height
      ensures a.rows[y] == b.rows[y]
    {
      forall x | 0 <= x < a.width
        ensures a.rows[y][x] == b.rows[y][x]
      {
        assert a.At(x, y) == b.At(x, y);
      }
    }
  }

  // ---------------------------------------------------------------------------
  // Rectangular crop

  /**
    `frame.crop((x, y, x + w, y + h))`. The box is not clamped: the result is exactly
    w by h, pixel (i, j) is the source pixel (x + i, y + j) where that lies inside the
    source, and the zero fill where it does not.
   */
  function Crop(f: Frame, x: int, y: int, w: nat, h: nat): (r: Frame)
    requires f.Valid()
    ensures r.Valid() && r.width == w && r.height == h
    ensures forall i, j :: r.Contains(i, j) && f.Contains(x + i, y + j) ==> r.At(i, j) == f.At(x + i, y + j)
    ensures forall i, j :: r.Contains(i, j) && !f.Contains(x + i, y + j) ==> r.At(i, j) == Transparent
  {
    Frame(w, h, seq(h, j => seq(w, i => if f.Contains(x + i, y + j) then f.At(x + i, y + j) else Transparent)))
  }

  /** Cropping the whole frame gives the frame back. */
  lemma CropWhole(f: Frame)
    requires f.Valid()
    ensures Crop(f, 0, 0, f.width, f.height) == f
  {
    var r := Crop(f, 0, 0, f.width, f.height);
    assert forall x, y :: r.Contains(x, y) ==> r.At(x, y) == f.At(0 + x, 0 + y);
    FrameExtensional(r, f);
  }

  /**
    A crop of a crop is one crop of the original at the summed offset, provided the
    inner box lies inside the outer one (this is how a grid cell of a cropped frame
    relates to the frame before cropping).
   */
  lemma CropOfCrop(f: Frame, x1: int, y1: int, w1: nat, h1: nat, x2: int, y2: int, w2: nat, h2: nat)
    requires f.Valid()
    requires 0 <= x2 && x2 + w2 <= w1 && 0 <= y2 && y2 + h2 <= h1
    ensures Crop(Crop(f, x1, y1, w1, h1), x2, y2, w2, h2) == Crop(f, x1 + x2, y1 + y2, w2, h2)
  {
    var outer := Crop(f, x1, y1, w1, h1);
    var a := Crop(outer, x2, y2, w2, h2);
    var b := Crop(f, x1 + x2, y1 + y2, w2, h2);
    forall i, j | a.Contains(i, j)
      ensures a.At(i, j) == b.At(i, j)
    {
      assert outer.Contains(x2 + i, y2 + j);
      assert x1 + (x2 + i) == x1 + x2 + i && y1 + (y2 + j) == y1 + y2 + j;
      if f.Contains(x1 + x2 + i, y1 + y2 + j) {
        assert a.At(i, j) == outer.At(x2 + i, y2 + j) == f.At(x1 + x2 + i, y1 + y2 + j);
      } else {
        assert a.At(i, j) == outer.At(x2 + i, y2 + j) == Transparent;
      }
    }
    FrameExtensional(a, b);
  }

  /** The list comprehension of `crop_to_rect`: every frame cropped to the same box. */
  function CropAll(fs: seq<Frame>, x: int, y: int, w: nat, h: nat): (r: seq<Frame>)
    requires forall k :: 0 <= k < |fs| ==> fs[k].Valid()
    ensures |r| == |fs| && SameSize(r, w, h)
    ensures forall k :: 0 <= k < |fs| ==> r[k] == Crop(fs[k], x, y, w, h)
  {
    seq(|fs|, k requires 0 <= k < |fs| => Crop(fs[k], x, y, w, h))
  }

  // ---------------------------------------------------------------------------
  // Resize

  /** Pillow's refusal of a target size with a side below 1: "height and width must be > 0". */
  datatype ResizeError = SizeNotPositive

  /**
    `frame.resize((w, h), LANCZOS)` for a size Pillow accepts: the output has exactly the
    requested size; its pixels are whatever the resampling filter `resample` computes
    from the source frame, the target size and the output position.
   */
  function Resize(f: Frame, w: nat, h: nat, resample: (Frame, nat, nat, int, int) -> Rgba): (r: Frame)
    requires w >= 1 && h >= 1
    ensures r.Valid() && r.width == w && r.height == h
  {
    Frame(w, h, seq(h, j => seq(w, i => resample(f, w, h, i, j))))
  }

  /**
    The list comprehension of `resize`: every frame resampled to (w, h). A width or
    height below 1 makes the first `frame.resize` raise, so the comprehension fails
    unless there is no frame to resize.
   */
  function ResizeAll(fs: seq<Frame>, w: int, h: int, resample: (Frame, nat, nat, int, int) -> Rgba)
    : (r: Result<seq<Frame>, ResizeError>)
    ensures r.Err? <==> |fs| > 0 && (w < 1 || h < 1)
    ensures r.Ok? ==> |r.value| == |fs| && forall k :: 0 <= k < |fs| ==>
      w >= 1 && h >= 1 && r.value[k] == Resize(fs[k], w, h, resample)
    ensures r.Ok? && w >= 0 && h >= 0 ==> SameSize(r.value, w, h)
  {
    if |fs| > 0 && (w < 1 || h < 1) then Err(SizeNotPositive)
    else Ok(seq(|fs|, k requires 0 <= k < |fs| && w >= 1 && h >= 1 => Resize(fs[k], w, h, resample)))
  }

  // ---------------------------------------------------------------------------
  // Circular mask

  /** An 8-bit mask image reduced to its two values: true for 255 (keep), false for 0. */
  type Mask = seq<seq<bool>>

  predicate MaskFits(m: Mask, f: Frame) {
    |m| == f.height && forall y :: 0 <= y < |m| ==> |m[y]| == f.width
  }

  /**
    `create_circular_mask((w, h))`: a w-by-h mask set exactly at the pixels of the filled
    ellipse inscribed in the box (0, 0, w - 1, h - 1); `inEllipse(w, h, x, y)` stands for
    the rasteriser's decision at pixel (x, y).
   */
  function CircularMask(w: nat, h: nat, inEllipse: (nat, nat, int, int) -> bool): (m: Mask)
    ensures |m| == h && forall y :: 0 <= y < h ==> |m[y]| == w
    ensures forall x, y :: 0 <= y < h && 0 <= x < w ==> (m[y][x] <==> inEllipse(w, h, x, y))
  {
    seq(h, y => seq(w, x => inEllipse(w, h, x, y)))
  }

  /**
    `Image.composite(frame, transparent, mask)`: the frame's pixel where the mask is set,
    the transparent background elsewhere; the size is unchanged.
   */
  function Composite(f: Frame, m: Mask): (r: Frame)
    requires f.Valid() && MaskFits(m, f)
    ensures r.Valid() && r.width == f.width && r.height == f.height
    ensures forall x, y :: r.Contains(x, y) && m[y][x] ==> r.At(x, y) == f.At(x, y)
    ensures forall x, y :: r.Contains(x, y) && !m[y][x] ==> r.At(x, y) == Transparent
  {
    Frame(f.width, f.height, seq(f.height, y => seq(f.width, x => if f.Contains(x, y) && m[y][x] then f.At(x, y) else Transparent)))
  }

  /**
    `crop_circle`: one mask sized from the first frame, composited onto every frame.
    Frame count and sizes are kept; a pixel survives exactly where it lies in the ellipse
    and is transparent elsewhere.
   */
  function CropCircleAll(fs: seq<Frame>, inEllipse: (nat, nat, int, int) -> bool): (r: seq<Frame>)
    requires Uniform(fs)
    ensures |r| == |fs| && Uniform(r) && SameSize(r, fs[0].width, fs[0].height)
    ensures forall k, x, y :: 0 <= k < |r| && r[k].Contains(x, y) ==>
      r[k].At(x, y) == if inEllipse(fs[0].width, fs[0].height, x, y) then fs[k].At(x, y) else Transparent
  {
    var mask := CircularMask(fs[0].width, fs[0].height, inEllipse);
    seq(|fs|, k requires 0 <= k < |fs| => Composite(fs[k], mask))
  }

  /** Masking twice is the same as masking once. */
  lemma CropCircleIdempotent(fs: seq<Frame>, inEllipse: (nat, nat, int, int) -> bool)
    requires Uniform(fs)
    ensures CropCircleAll(CropCircleAll(fs, inEllipse), inEllipse) == CropCircleAll(fs, inEllipse)
  {
    var once := CropCircleAll(fs, inEllipse);
    var twice := CropCircleAll(once, inEllipse);
    forall k | 0 <= k < |fs|
      ensures twice[k] == once[k]
    {
      forall x, y | twice[k].Contains(x, y)
        ensures twice[k].At(x, y) == once[k].At(x, y)
      {
        if !inEllipse(fs[0].width, fs[0].height, x, y) {
          assert twice[k].At(x, y) == Transparent;
        }
      }
      FrameExtensional(twice[k], once[k]);
    }
  }
}
