/**
  The grid split of `split_gif`: integer geometry of the cells and the nested chunk
  lists, row-major, with any remainder strip of the source dropped.
 */
module Grid {
  import opened Types
  import opened Frames

  /** One grid cell: the frames of the source cropped to the cell's box. */
  type Chunk = seq<Frame>

  /** `width // cols` or `height // rows` with a zero divisor. */
  datatype SplitError = ZeroDivisionError

  /** Python's `a // b`: the quotient rounded towards minus infinity. */
  function FloorDiv(a: int, b: int): (q: int)
    requires b != 0
    ensures b > 0 ==> q * b <= a < q * b + b
    ensures b < 0 ==> q * b + b < a <= q * b
  {
    if b > 0 then a / b else (-a) / (-b)
  }

  /** The number of values `range(n)` yields. */
  function Count(n: int): nat {
    if n > 0 then n else 0
  }

  /** Cell (r, c) of a grid of cw-by-ch cells: every frame cropped at origin (c*cw, r*ch). */
  function CellChunk(frames: seq<Frame>, r: nat, c: nat, cw: nat, ch: nat): Chunk
    requires forall k :: 0 <= k < |frames| ==> frames[k].Valid()
  {
    CropAll(frames, c * cw, r * ch, cw, ch)
  }

  /**
    `split_gif(rows, cols)`: the cell size is taken from the first frame, and the result
    is `rows` lists of `cols` chunks (none when a count is negative). A zero count
    raises ZeroDivisionError.
   */
  function Split(frames: seq<Frame>, rows: int, cols: int): (res: Result<seq<seq<Chunk>>, SplitError>)
    requires Uniform(frames)
    ensures res.Err? <==> rows == 0 || cols == 0
    ensures res.Ok? ==> |res.value| == Count(rows)
    ensures res.Ok? ==> forall r :: 0 <= r < |res.value| ==> |res.value[r]| == Count(cols)
  {
    if cols == 0 || rows == 0 then Err(ZeroDivisionError)
    else
      var cw := FloorDiv(frames[0].width, cols);
      var ch := FloorDiv(frames[0].height, rows);
      Ok(seq(Count(rows), r requires 0 <= r < Count(rows) =>
           seq(Count(cols), c requires 0 <= c < Count(cols) => CellChunk(frames, r, c, cw, ch))))
  }

  // ---------------------------------------------------------------------------
  // Cell geometry

  /** Pixel (px, py) lies in cell (r, c) of a grid of cw-by-ch cells. */
  predicate InCell(px: int, py: int, r: nat, c: nat, cw: nat, ch: nat) {
    c * cw <= px < c * cw + cw && r * ch <= py < r * ch + ch
  }

  lemma MulMonotone(a: nat, b: nat, k: nat)
    requires a <= b
    ensures a * k <= b * k
  {}

  /** On one axis, a coordinate lies in at most one cell. */
  lemma CellIndexUnique(p: int, i: nat, j: nat, size: nat)
    requires i * size <= p < i * size + size
    requires j * size <= p < j * size + size
    ensures i == j
  {
    if i < j {
      MulMonotone(i + 1, j, size);
    } else if j < i {
      MulMonotone(j + 1, i, size);
    }
  }

  /** Distinct cells are disjoint. */
  lemma CellsDisjoint(px: int, py: int, r1: nat, c1: nat, r2: nat, c2: nat, cw: nat, ch: nat)
    requires InCell(px, py, r1, c1, cw, ch) && InCell(px, py, r2, c2, cw, ch)
    ensures r1 == r2 && c1 == c2
  {
    CellIndexUnique(px, c1, c2, cw);
    CellIndexUnique(py, r1, r2, ch);
  }

  /**
    Every cell of a rows-by-cols split of a W-by-H source lies within
    [0, cols*cw) x [0, rows*ch), which lies within the source.
   */
  lemma CellsWithinSource(px: int, py: int, r: nat, c: nat, rows: nat, cols: nat, w: nat, h: nat)
    requires rows >= 1 && cols >= 1 && r < rows && c < cols
    requires InCell(px, py, r, c, w / cols, h / rows)
    ensures 0 <= px < cols * (w / cols) <= w
    ensures 0 <= py < rows * (h / rows) <= h
  {
    MulMonotone(c + 1, cols, w / cols);
    MulMonotone(r + 1, rows, h / rows);
  }

  /** The strip right of cols*cw and the strip below rows*ch belong to no cell. */
  lemma RemainderNotCovered(px: int, py: int, r: nat, c: nat, rows: nat, cols: nat, cw: nat, ch: nat)
    requires r < rows && c < cols
    requires px >= cols * cw || py >= rows * ch
    ensures !InCell(px, py, r, c, cw, ch)
  {
    MulMonotone(c + 1, cols, cw);
    MulMonotone(r + 1, rows, ch);
  }

  /** Every pixel of [0, cols*cw) x [0, rows*ch) lies in the cell (py / ch, px / cw). */
  lemma GridAreaCovered(px: int, py: int, rows: nat, cols: nat, cw: nat, ch: nat)
    requires cw >= 1 && ch >= 1
    requires 0 <= px < cols * cw && 0 <= py < rows * ch
    ensures py / ch < rows && px / cw < cols
    ensures InCell(px, py, py / ch, px / cw, cw, ch)
  {
    if px / cw >= cols {
      MulMonotone(cols, px / cw, cw);
    }
    if py / ch >= rows {
      MulMonotone(rows, py / ch, ch);
    }
  }

  // ---------------------------------------------------------------------------
  // What a split produces

  /**
    With positive counts the split succeeds: `rows` rows of `cols` chunks, and every
    chunk holds one frame per source frame, each of size (W // cols, H // rows).
   */
  lemma SplitShape(frames: seq<Frame>, rows: int, cols: int)
    requires Uniform(frames) && rows >= 1 && cols >= 1
    ensures Split(frames, rows, cols).Ok?
    ensures var g := Split(frames, rows, cols).value;
      |g| == rows &&
      forall r, c :: 0 <= r < rows && 0 <= c < cols ==>
        |g[r]| == cols && |g[r][c]| == |frames| &&
        SameSize(g[r][c], frames[0].width / cols, frames[0].height / rows)
  {
    var g := Split(frames, rows, cols).value;
    forall r, c | 0 <= r < rows && 0 <= c < cols
      ensures |g[r]| == cols && |g[r][c]| == |frames|
      ensures SameSize(g[r][c], frames[0].width / cols, frames[0].height / rows)
    {
      assert g[r][c] == CellChunk(frames, r, c, frames[0].width / cols, frames[0].height / rows);
    }
  }

  /**
    Pixel (i, j) of frame k of chunk (r, c) is pixel (c*cw + i, r*ch + j) of source frame k,
    a point that lies inside the source and inside cell (r, c): no chunk pixel is fill.
   */
  lemma SplitPixels(frames: seq<Frame>, rows: int, cols: int, r: nat, c: nat, k: nat, i: int, j: int)
    requires Uniform(frames) && rows >= 1 && cols >= 1
    requires r < rows && c < cols && k < |frames|
    requires 0 <= i < frames[0].width / cols && 0 <= j < frames[0].height / rows
    ensures var g := Split(frames, rows, cols).value;
      var cw := frames[0].width / cols;
      var ch := frames[0].height / rows;
      InCell(c * cw + i, r * ch + j, r, c, cw, ch) &&
      frames[k].Contains(c * cw + i, r * ch + j) &&
      g[r][c][k].Contains(i, j) &&
      g[r][c][k].At(i, j) == frames[k].At(c * cw + i, r * ch + j)
  {
    var cw := frames[0].width / cols;
    var ch := frames[0].height / rows;
    SplitShape(frames, rows, cols);
    var g := Split(frames, rows, cols).value;
    assert g[r][c] == CellChunk(frames, r, c, cw, ch);
    CellsWithinSource(c * cw + i, r * ch + j, r, c, rows, cols, frames[0].width, frames[0].height);
    assert g[r][c][k] == Crop(frames[k], c * cw, r * ch, cw, ch);
  }
}
