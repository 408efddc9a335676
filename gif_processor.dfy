/**
  The GifProcessor class of gif_processor.py: it holds the decoded frames and their
  durations, replaces the frame list with transformed copies, splits it into a grid,
  searches for an encoder quality and plans the output files.

  The decoder is the field `gif`, the frames in file order with the `duration` each
  reports; the encoder's size measurement, the resampling filter and the ellipse
  rasteriser are function parameters.
 */
module Processor {
  import opened Types
  import opened Frames
  import opened Grid
  import opened QualitySearch
  import opened ChunkWriter

  /** A decoded frame and the `duration` entry of the decoder's info for it, if any. */
  datatype DecodedFrame = DecodedFrame(frame: Frame, duration: Option<int>)

  /** The duration `load_frames` records when the decoder reports none. */
  const DefaultDuration: int := 100

  /** `optimize_chunks` found no quality: the ValueError "Cannot compress chunks ...". */
  datatype OptimizeError = CannotCompress

  type ChunkGrid = seq<seq<Chunk>>

  function DurationOf(d: DecodedFrame): (ms: int)
    ensures d.duration.Some? ==> ms == d.duration.value
    ensures d.duration.None? ==> ms == DefaultDuration
  {
    match d.duration
    case Some(v) => v
    case None => DefaultDuration
  }

  function FramesOf(ds: seq<DecodedFrame>): (fs: seq<Frame>)
    ensures |fs| == |ds| && forall i :: 0 <= i < |ds| ==> fs[i] == ds[i].frame
  {
    seq(|ds|, i requires 0 <= i < |ds| => ds[i].frame)
  }

  function DurationsOf(ds: seq<DecodedFrame>): (ms: seq<int>)
    ensures |ms| == |ds| && forall i :: 0 <= i < |ds| ==> ms[i] == DurationOf(ds[i])
  {
    seq(|ds|, i requires 0 <= i < |ds| => DurationOf(ds[i]))
  }

  /**
    The inner loops of one probe of `optimize_chunks`: encode every chunk at quality q and
    keep the largest size, starting from 0.
   */
  method LargestChunkSize(chunks: ChunkGrid, q: int, size: (Chunk, int) -> nat) returns (m: nat)
    ensures m == MaxChunkSize(chunks, size, q)
  {
    m := 0;
    var r := 0;
    while r < |chunks|
      invariant 0 <= r <= |chunks|
      invariant m == MaxChunkSize(chunks[..r], size, q)
    {
      var row := chunks[r];
      var c := 0;
      while c < |row|
        invariant 0 <= c <= |row|
        invariant m == Max(MaxChunkSize(chunks[..r], size, q), MaxInRow(row[..c], size, q))
      {
        assert row[..c + 1][..c] == row[..c];
        m := Max(m, size(row[c], q));
        c := c + 1;
      }
      assert row[..|row|] == row;
      assert chunks[..r + 1][..r] == chunks[..r];
      r := r + 1;
    }
    assert chunks[..|chunks|] == chunks;
  }

  class GifProcessor {
    /** The decoder: every frame of the file, in order. */
    var gif: seq<DecodedFrame>
    /** The decoder's current frame, `gif.tell()`. */
    var position: nat
    var frames: seq<Frame>
    var durations: seq<int>
    /** The attribute `optimal_quality`; None while it has not been set. */
    var optimalQuality: Option<int>

    /** One duration per frame, and at least one frame, all of one size. */
    ghost predicate Valid()
      reads this
    {
      position < |gif| && Uniform(frames) && |frames| == |durations|
    }

    /**
      `GifProcessor(input_path)`: open the decoder and load every frame. A decoded GIF
      has at least one frame, and every frame has the size of the logical screen.
     */
    constructor (decoded: seq<DecodedFrame>)
      requires |decoded| >= 1 && Uniform(FramesOf(decoded))
      ensures Valid()
      ensures gif == decoded && position == |decoded| - 1
      ensures frames == FramesOf(decoded) && durations == DurationsOf(decoded)
      ensures optimalQuality == None
    {
      gif := decoded;
      position := 0;
      frames := [];
      durations := [];
      optimalQuality := None;
      new;
      LoadFrames();
      assert decoded[0..] == decoded;
    }

    /**
      `load_frames`: append the current frame and its duration (100 when absent), then
      seek to the next frame; seeking past the last frame ends the loop.
     */
    method LoadFrames()
      requires position < |gif| && |frames| == |durations|
      modifies this`frames, this`durations, this`position
      ensures position == |gif| - 1
      ensures frames == old(frames) + FramesOf(gif[old(position)..])
      ensures durations == old(durations) + DurationsOf(gif[old(position)..])
    {
      ghost var start := position;
      while true
        invariant start <= position < |gif|
        invariant frames == old(frames) + FramesOf(gif[start..position])
        invariant durations == old(durations) + DurationsOf(gif[start..position])
        decreases |gif| - position
      {
        assert gif[start..position + 1] == gif[start..position] + [gif[position]];
        frames := frames + [gif[position].frame];
        durations := durations + [DurationOf(gif[position])];
        if position + 1 >= |gif| {
          assert gif[start..position + 1] == gif[start..];
          break;
        }
        position := position + 1;
      }
    }

    /** `crop_to_rect(x, y, width, height)`: every frame cropped to the same unclamped box. */
    method CropToRect(x: int, y: int, width: nat, height: nat)
      requires Valid()
      modifies this`frames
      ensures Valid()
      ensures frames == CropAll(old(frames), x, y, width, height)
    {
      frames := CropAll(frames, x, y, width, height);
    }

    /**
      `resize(width, height)`: every frame resampled to (width, height). A width or height
      below 1 raises from the first frame's resize before the frame list is replaced.
     */
    method Resize(width: int, height: int, resample: (Frame, nat, nat, int, int) -> Rgba)
      returns (err: Option<ResizeError>)
      requires Valid()
      modifies this`frames
      ensures Valid()
      ensures err.Some? <==> width < 1 || height < 1
      ensures err.Some? ==> frames == old(frames)
      ensures err.None? ==> Ok(frames) == ResizeAll(old(frames), width, height, resample)
    {
      var resized := ResizeAll(frames, width, height, resample);
      if resized.Err? {
        return Some(resized.error);
      }
      frames := resized.value;
      return None;
    }

    /** `crop_circle()`: the elliptical mask of the first frame's size applied to every frame. */
    method CropCircle(inEllipse: (nat, nat, int, int) -> bool)
      requires Valid()
      modifies this`frames
      ensures Valid()
      ensures frames == CropCircleAll(old(frames), inEllipse)
    {
      frames := CropCircleAll(frames, inEllipse);
    }

    /**
      `split_gif(rows, cols)`: three nested loops building `rows` lists of `cols` chunks,
      each chunk the list of every frame cropped to that cell.
     */
    method SplitGif(rows: int, cols: int) returns (res: Result<ChunkGrid, SplitError>)
      requires Valid()
      ensures res == Split(frames, rows, cols)
    {
      if cols == 0 || rows == 0 {
        return Err(ZeroDivisionError);
      }
      var chunkWidth := FloorDiv(frames[0].width, cols);
      var chunkHeight := FloorDiv(frames[0].height, rows);
      ghost var expected := Split(frames, rows, cols).value;
      var chunks: ChunkGrid := [];
      var y := 0;
      while y < rows
        invariant 0 <= y <= Count(rows)
        invariant |chunks| == y
        invariant forall r :: 0 <= r < y ==> chunks[r] == expected[r]
      {
        var rowChunks: seq<Chunk> := [];
        var x := 0;
        while x < cols
          invariant 0 <= x <= Count(cols)
          invariant |rowChunks| == x
          invariant forall c :: 0 <= c < x ==> rowChunks[c] == expected[y][c]
        {
          var left := x * chunkWidth;
          var top := y * chunkHeight;
          var chunkFrames: Chunk := [];
          var k := 0;
          while k < |frames|
            invariant 0 <= k <= |frames|
            invariant |chunkFrames| == k
            invariant forall i :: 0 <= i < k ==> chunkFrames[i] == Crop(frames[i], left, top, chunkWidth, chunkHeight)
          {
            chunkFrames := chunkFrames + [Crop(frames[k], left, top, chunkWidth, chunkHeight)];
            k := k + 1;
          }
          assert chunkFrames == CellChunk(frames, y, x, chunkWidth, chunkHeight);
          rowChunks := rowChunks + [chunkFrames];
          x := x + 1;
        }
        assert rowChunks == expected[y];
        chunks := chunks + [rowChunks];
        y := y + 1;
      }
      assert chunks == expected;
      return Ok(chunks);
    }

    /**
      `optimize_chunks(chunks, max_size)`: the bisection over qualities 1..100 against
      max_size * 1024 bytes. On success it records the quality it settled on in
      `optimalQuality` and returns the chunks unchanged; when no probe fitted it raises.
      `probes` counts the loop's iterations, each of which measures every chunk once.
     */
    method OptimizeChunks(chunks: ChunkGrid, maxSize: int, size: (Chunk, int) -> nat)
      returns (res: Result<ChunkGrid, OptimizeError>, ghost probes: nat)
      modifies this`optimalQuality
      ensures var q := OptimizeAsWritten(Probe(chunks, size, maxSize * 1024)).quality;
        (q.None? ==> res == Err(CannotCompress) && optimalQuality == old(optimalQuality)) &&
        (q.Some? ==> res == Ok(chunks) && optimalQuality == q)
      ensures probes <= 7
    {
      var budget := maxSize * 1024;
      ghost var outcome := OptimizeAsWritten(Probe(chunks, size, budget)).quality;
      probes := 0;
      var minQuality := MinQuality;
      var maxQuality := MaxQuality;
      var optimal: Option<int> := None;
      while minQuality <= maxQuality
        invariant optimalQuality == old(optimalQuality)
        invariant SearchAsWritten(Probe(chunks, size, budget), minQuality, maxQuality, optimal).quality == outcome
        invariant probes <= 7 && maxQuality - minQuality + 1 <= Remaining[probes]
        decreases maxQuality - minQuality
      {
        var midQuality := (minQuality + maxQuality) / 2;
        assert probes < 7 && maxQuality - midQuality <= Remaining[probes + 1] &&
               midQuality - minQuality <= Remaining[probes + 1] by {
          HalvingStep(minQuality, maxQuality, probes);
        }
        probes := probes + 1;
        var maxChunkSize := LargestChunkSize(chunks, midQuality, size);
        ProbeStep(chunks, size, budget, minQuality, maxQuality, optimal, maxChunkSize);
        if maxChunkSize > budget {
          minQuality := midQuality + 1;
        } else {
          optimal := Some(midQuality);
          maxQuality := midQuality - 1;
        }
      }
      assert SearchAsWritten(Probe(chunks, size, budget), minQuality, maxQuality, optimal).quality == optimal;
      if optimal.None? {
        return Err(CannotCompress), probes;
      }
      optimalQuality := optimal;
      return Ok(chunks), probes;
    }

    /**
      `save_chunks(chunks, output_dir)`: the files written, `chunk_{r}_{c}.gif` in row-major
      order, each at the recorded quality (85 when none was recorded) with this processor's
      durations and loop 0; a chunk without frames stops the loop with IndexError.
     */
    method SaveChunks(chunks: ChunkGrid, outputDir: string) returns (plan: Plan)
      ensures plan == SavePlan(chunks, outputDir, optimalQuality, durations)
    {
      var quality := QualityOrDefault(optimalQuality);
      var writes: seq<Write> := [];
      ghost var cells := Cells(chunks);
      ghost var n: nat := 0;
      var rowIdx := 0;
      while rowIdx < |chunks|
        invariant 0 <= rowIdx <= |chunks|
        invariant n == RowOffset(chunks, rowIdx) && n <= |cells|
        invariant AllHaveFrames(cells[..n])
        invariant writes == WritesFor(cells[..n], outputDir, quality, durations)
      {
        var row := chunks[rowIdx];
        var colIdx := 0;
        while colIdx < |row|
          invariant 0 <= colIdx <= |row|
          invariant n == RowOffset(chunks, rowIdx) + colIdx && n <= |cells|
          invariant AllHaveFrames(cells[..n])
          invariant writes == WritesFor(cells[..n], outputDir, quality, durations)
        {
          var chunkFrames := row[colIdx];
          CellsAt(chunks, rowIdx, colIdx);
          if |chunkFrames| == 0 {
            SavePlanStopsAt(chunks, outputDir, optimalQuality, durations, cells[..n]);
            return Plan(writes, Some(IndexError));
          }
          TakeOneMore(cells, n);
          AllHaveFramesExtend(cells, n);
          writes := writes + [Write(Join(outputDir, ChunkName(rowIdx, colIdx)), chunkFrames, quality, durations, 0)];
          n := n + 1;
          colIdx := colIdx + 1;
        }
        rowIdx := rowIdx + 1;
      }
      CellsLength(chunks);
      assert cells[..n] == cells;
      SavePlanStopsAt(chunks, outputDir, optimalQuality, durations, cells[..n]);
      return Plan(writes, None);
    }
  }
}
