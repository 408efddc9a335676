/**
  `save_chunks` as a plan: the list of files it writes, in order, each with its path,
  frames, quality, frame durations and loop count, instead of writing them.
 */
module ChunkWriter {
  import opened Types
  import opened Frames

  /** The quality `getattr(self, 'optimal_quality', 85)` falls back to. */
  const DefaultQuality: int := 85

  /** One GIF file `save_chunks` writes. */
  datatype Write = Write(path: string, frames: seq<Frame>, quality: int, durations: seq<int>, loop: nat)

  /** `chunk_frames[0]` on a chunk without frames. */
  datatype SaveError = IndexError

  /** The files written, in order, and the error that stopped the loop, if any. */
  datatype Plan = Plan(writes: seq<Write>, error: Option<SaveError>)

  /** A grid cell with its row and column index. */
  datatype Cell = Cell(row: nat, col: nat, frames: seq<Frame>)

  function QualityOrDefault(q: Option<int>): (r: int)
    ensures q.Some? ==> r == q.value
    ensures q.None? ==> r == DefaultQuality
  {
    match q
    case Some(v) => v
    case None => DefaultQuality
  }

  // ---------------------------------------------------------------------------
  // File names

  predicate IsDigit(ch: char) {
    '0' <= ch <= '9'
  }

  predicate AllDigits(s: string) {
    forall i :: 0 <= i < |s| ==> IsDigit(s[i])
  }

  function DigitChar(d: nat): (ch: char)
    requires d < 10
    ensures IsDigit(ch)
  {
    ('0' as int + d) as char
  }

  function DigitValue(ch: char): (d: nat)
    requires IsDigit(ch)
    ensures d < 10 && DigitChar(d) == ch
  {
    ch as int - '0' as int
  }

  /** The number a digit string denotes in base 10, most significant digit first. */
  function DigitsValue(s: string): nat
    requires AllDigits(s)
  {
    if |s| == 0 then 0 else 10 * DigitsValue(s[..|s| - 1]) + DigitValue(s[|s| - 1])
  }

  /**
    Python's decimal `str(n)` of a non-negative integer: a non-empty digit string, a
    single digit exactly for numbers below 10 (NatToStringDenotes: it denotes n in
    base 10, with no leading zero except for 0 itself).
   */
  function NatToString(n: nat): (s: string)
    ensures |s| >= 1 && AllDigits(s)
    ensures |s| == 1 <==> n < 10
  {
    if n < 10 then [DigitChar(n)] else NatToString(n / 10) + [DigitChar(n % 10)]
  }

  /** The decimal string of n reads back as n, and starts with '0' only for 0. */
  lemma {:induction false} NatToStringDenotes(n: nat)
    ensures DigitsValue(NatToString(n)) == n
    ensures NatToString(n)[0] == '0' <==> n == 0
  {
    if n >= 10 {
      NatToStringDenotes(n / 10);
      var s := NatToString(n);
      assert s[..|s| - 1] == NatToString(n / 10);
    }
  }

  /** Distinct numbers have distinct decimal strings: each string reads back as its number. */
  lemma NatToStringInjective(a: nat, b: nat)
    requires NatToString(a) == NatToString(b)
    ensures a == b
  {
    NatToStringDenotes(a);
    NatToStringDenotes(b);
  }

  /** `f'chunk_{r}_{c}.gif'`. */
  function ChunkName(r: nat, c: nat): string {
    "chunk_" + NatToString(r) + "_" + NatToString(c) + ".gif"
  }

  /** Two digit strings joined by "_" can be split apart again. */
  lemma UnderscoreSplit(a: string, b: string, a': string, b': string)
    requires AllDigits(a) && AllDigits(a')
    requires a + "_" + b == a' + "_" + b'
    ensures a == a' && b == b'
  {
    var s := a + "_" + b;
    assert s == a' + "_" + b';
    assert s[|a|] == '_' && s[|a'|] == '_';
    assert forall i :: 0 <= i < |a| ==> IsDigit(s[i]);
    assert forall i :: 0 <= i < |a'| ==> IsDigit(s[i]);
    assert |a| == |a'|;
    assert a == s[..|a|] == a';
    assert b == s[|a| + 1..] == b';
  }

  /** Distinct cells get distinct file names. */
  lemma ChunkNameInjective(r: nat, c: nat, r': nat, c': nat)
    requires ChunkName(r, c) == ChunkName(r', c')
    ensures r == r' && c == c'
  {
    var n, n' := ChunkName(r, c), ChunkName(r', c');
    var mid := NatToString(r) + "_" + NatToString(c);
    var mid' := NatToString(r') + "_" + NatToString(c');
    assert n == "chunk_" + mid + ".gif" && n' == "chunk_" + mid' + ".gif";
    assert mid == n[6..|n| - 4] == n'[6..|n'| - 4] == mid';
    UnderscoreSplit(NatToString(r), NatToString(c), NatToString(r'), NatToString(c'));
    NatToStringInjective(r, r');
    NatToStringInjective(c, c');
  }

  /** POSIX `os.path.join(dir, name)` for a relative name. */
  function Join(dir: string, name: string): string {
    if dir == [] || dir[|dir| - 1] == '/' then dir + name else dir + "/" + name
  }

  lemma JoinInjective(dir: string, a: string, b: string)
    requires Join(dir, a) == Join(dir, b)
    ensures a == b
  {
    var p := if dir == [] || dir[|dir| - 1] == '/' then dir else dir + "/";
    assert Join(dir, a) == p + a && Join(dir, b) == p + b;
    assert a == (p + a)[|p|..];
    assert b == (p + b)[|p|..];
  }

  // ---------------------------------------------------------------------------
  // Row-major enumeration of the cells

  /** Cell (r, c) comes before cell (r', c') in row-major order. */
  predicate Before(a: Cell, b: Cell) {
    a.row < b.row || (a.row == b.row && a.col < b.col)
  }

  function RowCells(r: nat, row: seq<seq<Frame>>): (cells: seq<Cell>)
    ensures |cells| == |row|
    ensures forall c :: 0 <= c < |row| ==> cells[c] == Cell(r, c, row[c])
  {
    seq(|row|, c requires 0 <= c < |row| => Cell(r, c, row[c]))
  }

  /**
    The cells in the order of the two `enumerate` loops, row by row and, within a row,
    column by column.
   */
  function Cells(chunks: seq<seq<seq<Frame>>>): seq<Cell>
  {
    if chunks == [] then []
    else
      var init := chunks[..|chunks| - 1];
      Cells(init) + RowCells(|chunks| - 1, chunks[|chunks| - 1])
  }

  /** Every enumerated cell is a position of the grid holding that position's chunk. */
  lemma {:induction false} CellsMember(chunks: seq<seq<seq<Frame>>>, i: nat)
    requires i < |Cells(chunks)|
    ensures var cell := Cells(chunks)[i];
      cell.row < |chunks| && cell.col < |chunks[cell.row]| && cell.frames == chunks[cell.row][cell.col]
  {
    var n := |chunks| - 1;
    var init := Cells(chunks[..n]);
    assert Cells(chunks) == init + RowCells(n, chunks[n]);
    if i < |init| {
      CellsMember(chunks[..n], i);
      assert Cells(chunks)[i] == init[i];
    }
  }

  /** The enumeration is strictly increasing in row-major order. */
  lemma {:induction false} CellsOrdered(chunks: seq<seq<seq<Frame>>>, i: nat, j: nat)
    requires i < j < |Cells(chunks)|
    ensures Before(Cells(chunks)[i], Cells(chunks)[j])
  {
    var n := |chunks| - 1;
    var init := Cells(chunks[..n]);
    var cells := Cells(chunks);
    assert cells == init + RowCells(n, chunks[n]);
    if j < |init| {
      CellsOrdered(chunks[..n], i, j);
    } else if i < |init| {
      CellsMember(chunks[..n], i);
      assert cells[i] == init[i];
    } else {
      assert cells[i] == Cell(n, i - |init|, chunks[n][i - |init|]);
      assert cells[j] == Cell(n, j - |init|, chunks[n][j - |init|]);
    }
  }

  /** The number of cells in the rows before row r. */
  function RowOffset(chunks: seq<seq<seq<Frame>>>, r: nat): nat
    requires r <= |chunks|
  {
    if r == 0 then 0 else RowOffset(chunks, r - 1) + |chunks[r - 1]|
  }

  lemma {:induction false} RowOffsetPrefix(chunks: seq<seq<seq<Frame>>>, n: nat, r: nat)
    requires r <= n <= |chunks|
    ensures RowOffset(chunks[..n], r) == RowOffset(chunks, r)
  {
    if r > 0 {
      RowOffsetPrefix(chunks, n, r - 1);
      assert chunks[..n][r - 1] == chunks[r - 1];
    }
  }

  lemma {:induction false} CellsLength(chunks: seq<seq<seq<Frame>>>)
    ensures |Cells(chunks)| == RowOffset(chunks, |chunks|)
  {
    if chunks != [] {
      var n := |chunks| - 1;
      CellsLength(chunks[..n]);
      RowOffsetPrefix(chunks, n, n);
    }
  }

  /** Cell (r, c) sits at position RowOffset(r) + c of the enumeration. */
  lemma {:induction false} CellsAt(chunks: seq<seq<seq<Frame>>>, r: nat, c: nat)
    requires r < |chunks| && c < |chunks[r]|
    ensures RowOffset(chunks, r) + c < |Cells(chunks)|
    ensures Cells(chunks)[RowOffset(chunks, r) + c] == Cell(r, c, chunks[r][c])
  {
    var n := |chunks| - 1;
    var init := chunks[..n];
    CellsLength(init);
    RowOffsetPrefix(chunks, n, n);
    if r == n {
      assert Cells(chunks) == Cells(init) + RowCells(n, chunks[n]);
    } else {
      CellsAt(init, r, c);
      RowOffsetPrefix(chunks, n, r);
      assert init[r] == chunks[r];
    }
  }

  /** In a grid of equal rows of `cols` chunks, row r starts at r * cols. */
  lemma {:induction false} RowOffsetRectangular(chunks: seq<seq<seq<Frame>>>, cols: nat, r: nat)
    requires forall i :: 0 <= i < |chunks| ==> |chunks[i]| == cols
    requires r <= |chunks|
    ensures RowOffset(chunks, r) == r * cols
  {
    if r > 0 {
      RowOffsetRectangular(chunks, cols, r - 1);
    }
  }

  // ---------------------------------------------------------------------------
  // The plan

  /** The position of the first cell without frames, or the number of cells. */
  function FirstEmpty(cells: seq<Cell>): (k: nat)
    ensures k <= |cells|
    ensures forall i :: 0 <= i < k ==> |cells[i].frames| > 0
    ensures k < |cells| ==> |cells[k].frames| == 0
  {
    if cells == [] || |cells[0].frames| == 0 then 0 else 1 + FirstEmpty(cells[1..])
  }

  function WriteFor(cell: Cell, dir: string, quality: int, durations: seq<int>): Write {
    Write(Join(dir, ChunkName(cell.row, cell.col)), cell.frames, quality, durations, 0)
  }

  /** The writes of a sequence of cells, one per cell, in order. */
  function WritesFor(cells: seq<Cell>, dir: string, quality: int, durations: seq<int>): (ws: seq<Write>)
    ensures |ws| == |cells|
  {
    if cells == [] then []
    else WritesFor(cells[..|cells| - 1], dir, quality, durations) + [WriteFor(cells[|cells| - 1], dir, quality, durations)]
  }

  lemma {:induction false} WritesForAt(cells: seq<Cell>, dir: string, quality: int, durations: seq<int>, i: nat)
    requires i < |cells|
    ensures WritesFor(cells, dir, quality, durations)[i] == WriteFor(cells[i], dir, quality, durations)
  {
    var n := |cells| - 1;
    if i < n {
      WritesForAt(cells[..n], dir, quality, durations, i);
    }
  }

  /**
    What `save_chunks(chunks, dir)` writes: one file per cell in row-major order, all at
    the recorded quality (85 if none was recorded), with the processor's durations and
    loop 0, up to the first chunk without frames, where it raises IndexError.
   */
  function SavePlan(chunks: seq<seq<seq<Frame>>>, dir: string, quality: Option<int>, durations: seq<int>): Plan {
    var cells := Cells(chunks);
    var k := FirstEmpty(cells);
    Plan(seq(k, i requires 0 <= i < k => WriteFor(cells[i], dir, QualityOrDefault(quality), durations)),
         if k < |cells| then Some(IndexError) else None)
  }

  /** Every cell's chunk has at least one frame. */
  predicate AllHaveFrames(cells: seq<Cell>) {
    forall i :: 0 <= i < |cells| ==> |cells[i].frames| > 0
  }

  /** A non-empty next cell extends a prefix of cells with frames. */
  lemma AllHaveFramesExtend(cells: seq<Cell>, n: nat)
    requires n < |cells| && AllHaveFrames(cells[..n]) && |cells[n].frames| > 0
    ensures AllHaveFrames(cells[..n + 1])
  {
    assert forall i :: 0 <= i < n ==> cells[..n + 1][i] == cells[..n][i];
  }

  /** A prefix one longer is the prefix followed by the next element. */
  lemma TakeOneMore<T>(s: seq<T>, n: nat)
    requires n < |s|
    ensures s[..n + 1] == s[..n] + [s[n]]
  {}

  /** The first empty cell of a sequence whose first n cells have frames and whose next does not. */
  lemma {:induction false} FirstEmptyAt(cells: seq<Cell>, n: nat)
    requires n <= |cells|
    requires forall i :: 0 <= i < n ==> |cells[i].frames| > 0
    requires n < |cells| ==> |cells[n].frames| == 0
    ensures FirstEmpty(cells) == n
  {
    if n > 0 {
      FirstEmptyAt(cells[1..], n - 1);
    }
  }

  lemma WritesForPrefix(cells: seq<Cell>, done: seq<Cell>, dir: string, quality: int, durations: seq<int>)
    requires |done| <= |cells| && cells[..|done|] == done
    ensures seq(|done|, i requires 0 <= i < |done| => WriteFor(cells[i], dir, quality, durations)) ==
            WritesFor(done, dir, quality, durations)
  {
    forall i | 0 <= i < |done|
      ensures WritesFor(done, dir, quality, durations)[i] == WriteFor(cells[i], dir, quality, durations)
    {
      WritesForAt(done, dir, quality, durations, i);
      assert done[i] == cells[i];
    }
  }

  /**
    Once the cells up to some position are known to be non-empty, and the enumeration
    either ends there or continues with an empty chunk, the plan is the writes of those
    cells followed by the matching error.
   */
  lemma SavePlanStopsAt(chunks: seq<seq<seq<Frame>>>, dir: string, quality: Option<int>, durations: seq<int>,
                        done: seq<Cell>)
    requires |done| <= |Cells(chunks)| && Cells(chunks)[..|done|] == done
    requires AllHaveFrames(done)
    requires |done| < |Cells(chunks)| ==> |Cells(chunks)[|done|].frames| == 0
    ensures SavePlan(chunks, dir, quality, durations) ==
      Plan(WritesFor(done, dir, QualityOrDefault(quality), durations),
           if |done| < |Cells(chunks)| then Some(IndexError) else None)
  {
    var cells := Cells(chunks);
    assert forall i :: 0 <= i < |done| ==> cells[i] == done[i];
    FirstEmptyAt(cells, |done|);
    WritesForPrefix(cells, done, dir, QualityOrDefault(quality), durations);
  }

  /** No two files of a plan have the same path. */
  lemma SavePlanPathsDistinct(chunks: seq<seq<seq<Frame>>>, dir: string, quality: Option<int>, durations: seq<int>,
                              i: nat, j: nat)
    requires i < j < |SavePlan(chunks, dir, quality, durations).writes|
    ensures SavePlan(chunks, dir, quality, durations).writes[i].path !=
            SavePlan(chunks, dir, quality, durations).writes[j].path
  {
    var cells := Cells(chunks);
    var w := SavePlan(chunks, dir, quality, durations).writes;
    CellsOrdered(chunks, i, j);
    if w[i].path == w[j].path {
      JoinInjective(dir, ChunkName(cells[i].row, cells[i].col), ChunkName(cells[j].row, cells[j].col));
      ChunkNameInjective(cells[i].row, cells[i].col, cells[j].row, cells[j].col);
    }
  }

  /**
    For a grid of `rows` rows of `cols` non-empty chunks the plan has no error and holds
    rows * cols files; file r * cols + c is `chunk_{r}_{c}.gif` in dir with chunk (r, c)'s
    frames, the recorded quality or 85, the given durations and loop 0.
   */
  lemma SavePlanRowMajor(chunks: seq<seq<seq<Frame>>>, cols: nat, dir: string, quality: Option<int>,
                         durations: seq<int>, r: nat, c: nat)
    requires forall i :: 0 <= i < |chunks| ==> |chunks[i]| == cols
    requires forall i, j :: 0 <= i < |chunks| && 0 <= j < cols ==> |chunks[i][j]| > 0
    requires r < |chunks| && c < cols
    ensures var p := SavePlan(chunks, dir, quality, durations);
      p.error.None? && |p.writes| == |chunks| * cols && r * cols + c < |p.writes| &&
      p.writes[r * cols + c] ==
        Write(Join(dir, ChunkName(r, c)), chunks[r][c],
              if quality.Some? then quality.value else DefaultQuality, durations, 0)
  {
    var cells := Cells(chunks);
    forall i | 0 <= i < |cells|
      ensures |cells[i].frames| > 0
    {
      CellsMember(chunks, i);
    }
    FirstEmptyAt(cells, |cells|);
    CellsLength(chunks);
    RowOffsetRectangular(chunks, cols, |chunks|);
    RowOffsetRectangular(chunks, cols, r);
    CellsAt(chunks, r, c);
  }
}
