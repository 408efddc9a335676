# GIFShine in Dafny

GIFShine cuts an animated GIF into a grid of smaller animated GIFs. This project models
two parts of it.

**The processing pipeline** is `GifProcessor` in gif_processor.py. It is a class whose
methods replace its frame list step by step:

- load every frame and its duration from the decoder;
- crop all frames to one rectangle, resize them, or mask them with an inscribed ellipse;
- split them into `rows` x `cols` chunks;
- bisect over encoder qualities 1..100 against a size budget of `max_size * 1024` bytes;
- write one file per chunk.

**The preview window's selection handling** is in gif_gui.py. It covers hit-testing of
the selection's edges, the cursor choice, resizing, moving and drawing the selection, the
initial selection, the animation frame counter, the position and size spinboxes, and the
file label.

The project has these modules:

- `Frames` (frames.dfy): pixel frames, crop, resize, the circular mask.
- `Grid` (grid.dfy): the split geometry.
- `QualitySearch` (quality_search.dfy): the bisection, both as written and corrected.
- `ChunkWriter` (chunk_writer.dfy): the output files, as a plan.
- `Processor` (gif_processor.dfy): the `GifProcessor` class.
- `SelectionGeometry` (selection_geometry.dfy): the integer rectangle arithmetic of the preview.
- `FileLabel` (file_label.dfy): the file label.
- `Gui` (gui.dfy): the `Main` and `PreviewWindow` classes.
- `Types` (types.dfy): `Option` and `Result`.

Foreign code is replaced by function parameters:

- the encoder's size measurement is `size(chunk, quality)`;
- the Lanczos filter is `resample`;
- Pillow's ellipse rasteriser is `inEllipse`;
- the floating-point aspect-ratio step of a resize drag is `keepAspect`.

The decoder is a sequence of decoded frames, each with an optional `duration`.

Several functions have no contract of their own. They define what a loop or an event
computes, and the lemmas in the table below state their properties:

- `QualitySearch.SearchAsWritten` is the loop of `optimize_chunks` as written, as a function of its state (lo, hi, best). `QualitySearch.OptimizeAsWritten` runs it from [1, 100].
- `QualitySearch.SearchHighest` and `QualitySearch.OptimizeIntended` are the same with the branches corrected.
- `ChunkWriter.SavePlan` is the list of files `save_chunks` writes. It is built from `ChunkWriter.Cells` (the row-major cell order), `ChunkWriter.ChunkName` and `ChunkWriter.Join`.
- `SelectionGeometry.AdvanceFrames` is a number of animation ticks in a row.

Where the code and its design notes disagree, the model follows the code:

- **No crop clamping.** `crop_to_rect` does not clamp the crop box. Pixels outside the frame come out as the zero fill (transparent).
- **No geometry errors.** Neither the crop nor the split rejects empty or zero-sized regions. A zero row or column count raises ZeroDivisionError. A negative count gives an empty grid.
- **Lowest quality, not highest.** The quality search moves towards lower qualities after a probe that fits. With fitting upward closed it finds the lowest fitting quality, not the highest. When size grows with quality it finds quality 1 if quality 50 fits, and fails otherwise (see Findings).
- **`save_chunks` stops on an empty chunk.** A chunk without frames raises IndexError after the files before it have been written.

## Model

| member | source | states |
|---|---|---|
| Frames.Crop | gif_processor.py:27-30 | the crop is exactly w by h; each pixel is the source pixel at the offset position when that lies in the source, and transparent otherwise (no clamping) |
| Frames.CropWhole | gif_processor.py:29 | cropping a frame to its own bounds gives the frame back |
| Frames.CropOfCrop | gif_processor.py:29 | a crop of a crop inside the outer box is a single crop of the original at the summed offset |
| Frames.CropAll | gif_processor.py:27-30 | every frame cropped to the same box; frame count kept, all frames w by h |
| Frames.Resize | gif_processor.py:23-25 | for a size Pillow accepts (both sides at least 1), a resized frame has exactly the requested size |
| Frames.ResizeAll | gif_processor.py:23-25 | fails with Pillow's size error exactly when there is a frame and a side is below 1; otherwise the frame count is kept and every frame is resized to (width, height) |
| Frames.CircularMask | gif_processor.py:32-36 | the mask has the requested size and is set exactly where the ellipse rasteriser sets it |
| Frames.Composite | gif_processor.py:40-42 | same size; the frame's pixel where the mask is set, transparent where it is not |
| Frames.CropCircleAll | gif_processor.py:38-43 | frame count and sizes kept; one mask sized from the first frame; each pixel is kept inside the ellipse and transparent outside it |
| Frames.CropCircleIdempotent | gif_processor.py:38-43 | applying the circular crop twice equals applying it once |
| Grid.FloorDiv | gif_processor.py:47-48 | Python's `//`: the quotient rounded towards minus infinity, for either sign of divisor |
| Grid.Split | gif_processor.py:45-62 | fails exactly when rows or cols is 0; otherwise `range(rows)` rows of `range(cols)` chunks |
| Grid.CellIndexUnique | gif_processor.py:54-55 | along one axis a coordinate lies in at most one cell |
| Grid.CellsDisjoint | gif_processor.py:54-58 | two cells that share a pixel are the same cell |
| Grid.CellsWithinSource | gif_processor.py:46-58 | every cell lies in [0, cols*cw) x [0, rows*ch), which lies inside the source |
| Grid.RemainderNotCovered | gif_processor.py:46-58 | no cell covers the strip right of cols*cw or below rows*ch |
| Grid.GridAreaCovered | gif_processor.py:46-58 | every pixel of [0, cols*cw) x [0, rows*ch) lies in the cell (y // ch, x // cw) |
| Grid.SplitShape | gif_processor.py:45-62 | with positive counts: rows x cols chunks, each of len(frames) frames of size (W // cols, H // rows) |
| Grid.SplitPixels | gif_processor.py:54-59 | pixel (i, j) of frame k of chunk (r, c) is the source pixel (c*cw + i, r*ch + j), which lies in the source |
| QualitySearch.MaxInRowBound | gif_processor.py:76-78 | no chunk of a row measures more than the row maximum |
| QualitySearch.MaxChunkSizeBound | gif_processor.py:72-78 | no chunk measures more than `max_chunk_size` |
| QualitySearch.MaxInRowAttained | gif_processor.py:76-78 | the row maximum is 0 or the size of one of its chunks |
| QualitySearch.MaxChunkSizeAttained | gif_processor.py:72-78 | `max_chunk_size` is 0 or the size of one of the chunks |
| QualitySearch.FitsMeansEveryChunkFits | gif_processor.py:72-80 | a probe fits exactly when the budget is non-negative and every chunk's size is within it |
| QualitySearch.ProbeStep | gif_processor.py:70-84 | one loop iteration on a grid: the quality `SearchAsWritten` settles on from the current bounds is the one it settles on from the bounds the branch at line 80 moves to |
| QualitySearch.SearchAsWrittenStep | gif_processor.py:70-84 | in `SearchAsWritten`, the loop as written as a function of its state (lo, hi, best), a fitting probe records mid and continues below it; a miss continues above it |
| QualitySearch.SearchAsWrittenFits | gif_processor.py:80-89 | a quality the loop returns is in 1..100 and its probe fitted |
| QualitySearch.SearchProbes | gif_processor.py:70-84 | an interval of fewer than 2^k qualities is settled within k probes |
| QualitySearch.HalvingStep | gif_processor.py:70-84 | when [lo, hi] holds at most Remaining[p] qualities (127, 63, ..., 1, 0 after p probes), p < 7 and either half left after probing the midpoint holds at most Remaining[p + 1] |
| QualitySearch.AtMostSevenProbes | gif_processor.py:66-84 | `OptimizeAsWritten`, the whole search from [1, 100], makes at most 7 probes |
| QualitySearch.GrowingSizeDownwardClosed | gif_processor.py:72-80 | if every chunk's size never shrinks as quality grows, a quality that fits makes every lower quality fit |
| QualitySearch.FirstFitFromIsLeast | gif_processor.py:66-87 | the upward scan returns the least fitting quality from q, and nothing exactly when none fits |
| QualitySearch.FirstFitSkip | gif_processor.py:80-81 | qualities that do not fit can be skipped in the upward scan |
| QualitySearch.SearchAsWrittenFirstFit | gif_processor.py:70-84 | with fitting upward closed, the loop from any reachable state returns the first fitting quality from its lower bound |
| QualitySearch.SearchAsWrittenAfterFit | gif_processor.py:82-84 | the same after a fitting probe |
| QualitySearch.SearchAsWrittenAfterMiss | gif_processor.py:80-81 | the same after a probe that does not fit |
| QualitySearch.AsWrittenFindsLeastFitting | gif_processor.py:64-90 | with fitting upward closed, optimize_chunks settles on the least fitting quality, and fails exactly when no quality in 1..100 fits |
| QualitySearch.AsWrittenAllFit | gif_processor.py:80-84 | when every quality of the interval fits, the loop ends on its lowest quality |
| QualitySearch.AsWrittenNoneFit | gif_processor.py:80-84 | when no quality of the interval fits, the loop returns what it had recorded |
| QualitySearch.AsWrittenUnderGrowingSize | gif_processor.py:80-84 | when size grows with quality, the result is quality 1 if quality 50 fits and a failure otherwise |
| QualitySearch.SearchHighestFits | gif_processor.py:80-84 | with the branches corrected, a returned quality is in range and fits |
| QualitySearch.SearchHighestStep | gif_processor.py:80-84 | in `SearchHighest`, the corrected loop as a function of its state (its whole search from [1, 100] is `OptimizeIntended`), a fit records mid and continues above it; a miss continues below it |
| QualitySearch.LastFitUpToIsGreatest | gif_processor.py:80-84 | the downward scan returns the greatest fitting quality up to q, and nothing exactly when none fits |
| QualitySearch.LastFitSkip | gif_processor.py:80-84 | qualities that do not fit can be skipped in the downward scan |
| QualitySearch.SearchHighestLastFit | gif_processor.py:80-84 | with fitting downward closed, the corrected loop from any reachable state returns the last fitting quality up to its upper bound |
| QualitySearch.SearchHighestAfterFit | gif_processor.py:80-84 | the same after a fitting probe |
| QualitySearch.SearchHighestAfterMiss | gif_processor.py:80-84 | the same after a probe that does not fit |
| QualitySearch.IntendedFindsHighestFitting | gif_processor.py:80-84 | the corrected loop settles on the highest fitting quality, and fails exactly when none fits |
| QualitySearch.IntendedMonotoneInBudget | gif_processor.py:80-84 | with the corrected loop, a larger budget never gives a lower quality |
| QualitySearch.LinearFits | gif_processor.py:80 | one chunk of 30*q bytes fits a 1 KB budget exactly at qualities up to 34 |
| QualitySearch.AsWrittenMissesFeasibleBudget | gif_processor.py:64-90 | for that chunk and max_size 1, quality 34 fits, yet the loop as written fails; the corrected loop returns 34 |
| ChunkWriter.QualityOrDefault | gif_processor.py:123 | the recorded quality if there is one, else 85 |
| ChunkWriter.NatToString | gif_processor.py:115 | a non-empty digit string, a single digit exactly for numbers below 10 |
| ChunkWriter.NatToStringDenotes | gif_processor.py:115 | the string read back in base 10 (`DigitsValue`, most significant digit first) is n, and it starts with '0' only for 0: Python's `str(n)` |
| ChunkWriter.NatToStringInjective | gif_processor.py:115 | distinct indices have distinct decimal strings |
| ChunkWriter.UnderscoreSplit | gif_processor.py:115 | "digits_rest" splits back into its two parts |
| ChunkWriter.ChunkNameInjective | gif_processor.py:113-116 | distinct (row, col) pairs get distinct `chunk_{r}_{c}.gif` names (`ChunkName`) |
| ChunkWriter.JoinInjective | gif_processor.py:113-116 | in one directory, distinct names give distinct paths under `Join`, POSIX `os.path.join` |
| ChunkWriter.RowCells | gif_processor.py:112 | one cell per chunk of a row, with its row and column index |
| ChunkWriter.CellsMember | gif_processor.py:111-112 | every cell of `Cells`, the row-major enumeration of the two loops, is a grid position holding that position's chunk |
| ChunkWriter.CellsOrdered | gif_processor.py:111-112 | the enumeration is strictly increasing in row-major order |
| ChunkWriter.RowOffsetPrefix | gif_processor.py:111-112 | the count of cells before row r depends only on rows before r |
| ChunkWriter.CellsLength | gif_processor.py:111-112 | the enumeration has one entry per chunk |
| ChunkWriter.CellsAt | gif_processor.py:111-112 | cell (r, c) is at position (number of cells in earlier rows) + c |
| ChunkWriter.RowOffsetRectangular | gif_processor.py:111-112 | in a grid of equal rows of cols chunks, row r starts at r * cols |
| ChunkWriter.FirstEmpty | gif_processor.py:117 | the first chunk without frames, where `chunk_frames[0]` raises; every earlier chunk has frames |
| ChunkWriter.WritesFor | gif_processor.py:111-126 | one write per cell |
| ChunkWriter.WritesForAt | gif_processor.py:111-126 | write i is the file for cell i |
| ChunkWriter.FirstEmptyAt | gif_processor.py:117 | the first empty chunk is found where the loop stopped |
| ChunkWriter.WritesForPrefix | gif_processor.py:111-126 | the writes of a prefix of the cells are the first writes of the plan |
| ChunkWriter.AllHaveFramesExtend | gif_processor.py:117 | a chunk with frames extends a prefix of cells with frames |
| ChunkWriter.SavePlanStopsAt | gif_processor.py:111-126 | `SavePlan`, the files `save_chunks` writes: once the loop has passed every cell before an empty chunk, or every cell, the plan is those writes plus IndexError or no error |
| ChunkWriter.SavePlanPathsDistinct | gif_processor.py:113-116 | no two files of the plan have the same path |
| ChunkWriter.SavePlanRowMajor | gif_processor.py:111-126 | for a rows x cols grid of non-empty chunks: no error, rows*cols files, and file r*cols + c is `chunk_{r}_{c}.gif` in the output directory with chunk (r, c), the recorded quality or 85, the durations and loop 0 |
| Processor.DurationOf | gif_processor.py:18 | the decoder's duration, or 100 when it reports none |
| Processor.FramesOf | gif_processor.py:16-17 | the decoded frames, in order |
| Processor.DurationsOf | gif_processor.py:18 | one duration per decoded frame, in order |
| Processor.LargestChunkSize | gif_processor.py:72-78 | the two inner loops compute `max_chunk_size`, the largest size over all chunks (0 with no chunks) |
| Processor.GifProcessor.constructor | gif_processor.py:7-11 | after loading, frames and durations are the decoder's frames and their durations; one duration per frame |
| Processor.GifProcessor.LoadFrames | gif_processor.py:13-21 | from the decoder's position to its last frame, appends each frame and its duration (100 if absent), and stops at the last frame |
| Processor.GifProcessor.CropToRect | gif_processor.py:27-30 | frames become the unclamped crop of each frame; durations unchanged |
| Processor.GifProcessor.Resize | gif_processor.py:23-25 | a side below 1 raises and leaves the frames as they were; otherwise the frames become the resized frames; durations unchanged |
| Processor.GifProcessor.CropCircle | gif_processor.py:38-43 | frames become the masked frames; durations unchanged |
| Processor.GifProcessor.SplitGif | gif_processor.py:45-62 | the three nested loops build exactly the grid that Grid.Split describes |
| Processor.GifProcessor.OptimizeChunks | gif_processor.py:64-90 | returns the chunks unchanged and records the quality the as-written bisection `OptimizeAsWritten` settles on, or raises and leaves `optimal_quality` untouched when no probe fitted; the loop runs, and measures the chunks, at most 7 times |
| Processor.GifProcessor.SaveChunks | gif_processor.py:108-126 | the writes made are exactly ChunkWriter.SavePlan for the recorded quality and this processor's durations |
| SelectionGeometry.CheckResizeEdge | gif_gui.py:401-419 | an edge is grabbed exactly within 10 px of it and inside the widened other-axis band; opposite edges are never both grabbed on a selection 20 px or larger |
| SelectionGeometry.CursorFor | gif_gui.py:433-444 | size_nw_se exactly when the top-left or bottom-right corner is grabbed, size_ne_sw exactly when not that but the other diagonal's corner is; single edges give size_we or size_ns, the interior the move cursor, elsewhere the default |
| SelectionGeometry.ResizeEdges | gif_gui.py:494-501 | grabbed edges follow the mouse offset but stop 10 px from the opposite original edge; others stay put; a single-edge drag keeps at least 10 px |
| SelectionGeometry.ClampToCanvas | gif_gui.py:528-531 | after the clamp 0 <= x1 <= cw - 10 and 10 <= x2 <= cw (the same for y); coordinates already in range are unchanged, and one outside its range lands on the bound it crossed |
| SelectionGeometry.ClampIdempotent | gif_gui.py:528-531 | clamping twice equals clamping once |
| SelectionGeometry.ResizeDrag | gif_gui.py:480-531 | a resize drag step ends on the canvas (0 <= x1 <= cw - 10, 10 <= x2 <= cw, the same for y) whatever the aspect-ratio step yields; unlocked, it is the clamped edge step; locked, it is the clamped result of the aspect-ratio step applied to the edge step |
| SelectionGeometry.MoveSelection | gif_gui.py:558-566 | a move keeps width and height, the new top-left is non-negative, the selection stays within the canvas when it fits, it follows the mouse when it can, and otherwise it lies against the border it would cross |
| SelectionGeometry.NewSelection | gif_gui.py:538-552 | a new selection is ordered, contains the mouse, and has the press point as a corner; locked, it is a square with side max(\|dx\|, \|dy\|); unlocked, it is the bounding box of press point and mouse |
| SelectionGeometry.InitialSelection | gif_gui.py:695-700 | a min(200, w-20) by min(200, h-20) box, centred to within a pixel, at least 10 px from each border |
| SelectionGeometry.SelectionOf | gif_gui.py:279-296 | the spinbox rectangle has its top-left at (x, y) and the spinboxes' width and height |
| SelectionGeometry.SpinboxesFor | gif_gui.py:226-234 | the spinbox values for a selection read back as that same selection |
| SelectionGeometry.SpinboxesRoundTrip | gif_gui.py:226-234 | every spinbox setting is the one its own rectangle produces |
| SelectionGeometry.NextFrame | gif_gui.py:654-655 | the next frame is in range: the following frame, or 0 after the last |
| SelectionGeometry.AdvanceFramesAdd | gif_gui.py:652-657 | a + b ticks of the animation (`AdvanceFrames`, NextFrame repeated) are a ticks followed by b ticks |
| SelectionGeometry.AdvanceFramesCount | gif_gui.py:652-657 | before the last frame each tick shows the following frame |
| SelectionGeometry.AnimationCycles | gif_gui.py:652-657 | after s <= n ticks the frame is current + s, wrapped once; after n ticks it is back where it started |
| FileLabel.Basename | gif_gui.py:189 | the part of the path after its last '/': a suffix with no '/' |
| FileLabel.DisplayName | gif_gui.py:189-193 | a name of at most 27 characters is shown unchanged; a longer one as its first 24 characters plus "...", exactly 27 |
| FileLabel.DisplayNameKeepsPrefix | gif_gui.py:190-191 | names that differ in their first 24 characters get different labels |
| Gui.Main.constructor | gif_gui.py:74-98 | the spinboxes start at x 0, y 0, width 100, height 100, the ratio locked, no file selected |
| Gui.Main.SelectFile | gif_gui.py:181-194 | a cancelled dialog changes nothing; otherwise the file is remembered and the label is its shortened base name, at most 27 characters |
| Gui.Main.UpdateSpinboxes | gif_gui.py:226-234 | the spinboxes take x1, y1, x2 - x1 and y2 - y1 |
| Gui.PreviewWindow.constructor | gif_gui.py:382-389 | a new preview has no selection, no drag and frame 0 current |
| Gui.PreviewWindow.OnMotion | gif_gui.py:421-444 | with a selection, the cursor is the one CursorFor picks; without one, it is unchanged |
| Gui.PreviewWindow.OnLeftPress | gif_gui.py:446-476 | no selection: start drawing from the press point; a grabbed edge: start resizing with those edges; the move cursor: start moving; the default cursor: nothing changes |
| Gui.PreviewWindow.OnDrag | gif_gui.py:478-571 | the selection becomes the resize step, the new selection or the moved selection, and the spinboxes show it; with no drag in progress nothing changes |
| Gui.PreviewWindow.OnRelease | gif_gui.py:573-584 | clears dragging, moving, the press point, the grabbed edges and the original coordinates, and copies the selection to the spinboxes |
| Gui.PreviewWindow.Animate | gif_gui.py:652-657 | advances to the next frame; the frame index always stays in range |
| Gui.PreviewWindow.SelectionFromInputs | gif_gui.py:279-297 | an existing selection moves to the rectangle the spinboxes describe |
| Gui.PreviewWindow.CreateInitialSelection | gif_gui.py:687-707 | as written, the selection it leaves is the spinboxes' rectangle, not the centred one |
| Gui.PreviewWindow.CreateCentredSelection | gif_gui.py:687-706 | corrected: the selection is the centred rectangle and the spinboxes show it |
| Gui.InitialSelectionDiscarded | gif_gui.py:695-707 | on a 300 x 300 canvas the computed selection is (50, 50, 250, 250), but the spinboxes' rectangle it is replaced by is (0, 0, 100, 100) |
| Gui.FullSizeInitialSelection | gif_gui.py:695-700 | on a canvas of at least 220 x 220 the initial selection is the full 200 x 200 box at ((w - 200) // 2, (h - 200) // 2) |
| Gui.CentredSelectionAgrees | gif_gui.py:695-706 | on a canvas at least 20 px each way the corrected selection is centred and agrees with its spinboxes, and with no other spinbox setting |

## Left out

- Image decoding and encoding by Pillow (`Image.open`, `save`, `_get_compressed_size` at gif_processor.py:92-106) are not modelled. The encoded size is the parameter `size`.
- Pixel modes and palettes are not modelled. Every frame is RGBA.
- Frames.Resize does not model Lanczos pixel values, because they are floating-point library numerics. Output pixels come from the parameter `resample`.
- Frames.CircularMask does not model Pillow's ellipse rasterisation, which is library behaviour. It is the parameter `inEllipse`.
- Negative crop sizes, which Pillow rejects, are excluded by `nat` parameters.
- `os.makedirs` and the file writes are I/O. `save_chunks` returns the plan of writes instead. Write errors are not modelled.
- tkinter is not modelled: widget construction, variable traces, `draw_selection`, `draw_grid` (float cell widths), `show_frame`, image loading in `set_gif`, the 100 ms `after` timer of `animate`, and `on_closing`. The preview's constructor takes the frame count and canvas size that `set_gif` establishes.
- Gui.PreviewWindow.OnDrag: the aspect-ratio step (gif_gui.py:504-522) uses float division. It is the parameter `keepAspect`, so its ZeroDivisionError is not modelled: on a zero-height original selection (gif_gui.py:507), or on a zero-width one with a left or right edge grabbed (gif_gui.py:511). An unlocked, purely vertical or horizontal draw makes such a selection.
- Gui.PreviewWindow.SelectionFromInputs does not model the ratio-locked branches of `update_selection_from_inputs` (gif_gui.py:275-289). They use float arithmetic.
- Gui.PreviewWindow.SelectionFromInputs does not model the TclError path (gif_gui.py:298-300). The spinboxes always hold integers.
- Canvas coordinates are integers here. tkinter's float coordinates arise only from the aspect-ratio steps: the one in `on_drag` and the ratio-locked branch of `update_selection_from_inputs`. Both are left out above, so `int()` in `update_spinboxes` is the identity.
- A deleted canvas item (`coords == []` in `on_motion` and `update_spinboxes`) does not arise. A selection is either absent or four coordinates.
- `select_file` is modelled only up to the label. The default output directory, enabling the buttons and `toggle_preview` are not modelled (gif_gui.py:196-206).
- `select_output_dir`, `update_resize`, `update_optimize`, `process_gif` and the `update_from_ui` guard are not modelled. They are UI plumbing; the guard only stops `update_spinboxes` from re-triggering the selection update.
- gif_cli.py is not part of this model: argument parsing, printing, and float aspect arithmetic.

## Findings

| source | as written | input that shows it | evidently intended | confidence | as-written member | corrected member |
|---|---|---|---|---|---|---|
| gif_processor.py:80-84 | after a probe that fits, the search records it and moves to lower qualities; after a miss it moves higher. When size grows with quality, the result is quality 1 if quality 50 fits and a failure otherwise | one chunk whose encoding is 30*q bytes, max_size 1 (1024 bytes): qualities 1..34 fit, yet the loop raises "Cannot compress" | after a fit, search higher; after a miss, search lower, so the result is the highest fitting quality, as the loop's "Find the optimal quality" comment and its `optimal_quality` name suggest | high, not executed | QualitySearch.AsWrittenMissesFeasibleBudget | QualitySearch.IntendedFindsHighestFitting |
| gif_gui.py:687-707 | the centred selection it creates is immediately moved by `update_selection_from_inputs('ui')` to the spinboxes' rectangle | a 300 x 300 canvas with the spinboxes at their starting values: the selection ends at (0, 0, 100, 100) instead of (50, 50, 250, 250) | keep the centred selection and show it in the spinboxes, as the comment "Create selection in the center with default size" says | medium, not executed | Gui.InitialSelectionDiscarded | Gui.CentredSelectionAgrees |
