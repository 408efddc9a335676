/**
  The state of gif_gui.py's two windows that the mouse handlers change: the main
  window's spinboxes and file label, and the preview window's selection, its
  press/drag/release flags and its animation frame.

  The canvas is reduced to the selection's coordinates (`cropRect`, None while no
  rectangle item exists), its size and the cursor it shows; drawing, images and timers
  are not part of this model.
 */
module Gui {
  import opened Types
  import opened SelectionGeometry
  import opened FileLabel

  /** The main window (`Main`), reduced to the state the preview reads and writes. */
  class Main {
    /** The X, Y, Width and Height spinboxes. */
    var spin: Spinboxes
    /** The "Maintain Ratio" checkbox. */
    var maintainRatio: bool
    var selectedFile: Option<string>
    /** The text of the input file label. */
    var fileLabel: string

    constructor ()
      ensures spin == DefaultSpinboxes && maintainRatio
      ensures selectedFile == None && fileLabel == "No file selected"
    {
      spin := DefaultSpinboxes;
      maintainRatio := true;
      selectedFile := None;
      fileLabel := "No file selected";
    }

    /**
      `select_file` with the dialog's answer `filename` (empty when cancelled): the file
      is remembered and the label shows its shortened base name.
     */
    method SelectFile(filename: string)
      modifies this`selectedFile, this`fileLabel
      ensures |filename| == 0 ==> selectedFile == old(selectedFile) && fileLabel == old(fileLabel)
      ensures |filename| > 0 ==> selectedFile == Some(filename) && fileLabel == DisplayName(Basename(filename))
      ensures |fileLabel| <= LabelLength || fileLabel == old(fileLabel)
    {
      if |filename| > 0 {
        selectedFile := Some(filename);
        fileLabel := DisplayName(Basename(filename));
      }
    }

    /** `update_spinboxes(coords)`: the spinboxes take the selection's position and size. */
    method UpdateSpinboxes(c: Rect)
      modifies this`spin
      ensures spin == SpinboxesFor(c) && SelectionOf(spin) == c
    {
      spin := SpinboxesFor(c);
    }
  }

  /** The preview window (`PreviewWindow`). */
  class PreviewWindow {
    const master: Main
    /** The number of loaded frames, `len(self.frames)`. */
    const frameCount: nat
    /** The canvas size, `winfo_width()` and `winfo_height()`. */
    const canvasWidth: int
    const canvasHeight: int
    var currentFrame: int
    /** The coordinates of the selection item, None while `crop_rect` is None. */
    var cropRect: Option<Rect>
    var cursor: Cursor
    var dragging: bool
    var moving: bool
    var startPos: Option<Point>
    /** The attribute `resize_edges`; None while it is not set. */
    var resizeEdges: Option<Edges>
    /** The attribute `original_coords`; None while it is not set. */
    var originalCoords: Option<Rect>

    /**
      The handlers set `resize_edges` only together with `original_coords`, and
      `moving` only together with it, so a drag always finds the coordinates it starts
      from; the animation frame is always one that exists.
     */
    ghost predicate Valid()
      reads this
    {
      (resizeEdges.Some? ==> originalCoords.Some?) &&
      (moving ==> originalCoords.Some?) &&
      0 <= currentFrame && (frameCount > 0 ==> currentFrame < frameCount)
    }

    /**
      A preview window for `master` after `set_gif` has loaded `frames` frames onto a
      canvas of the given size: no selection and no drag yet, frame 0 current.
     */
    constructor (master: Main, frames: nat, width: int, height: int)
      ensures Valid()
      ensures this.master == master && frameCount == frames
      ensures canvasWidth == width && canvasHeight == height
      ensures currentFrame == 0 && cropRect == None && cursor == Default
      ensures !dragging && !moving && startPos == None && resizeEdges == None && originalCoords == None
    {
      this.master := master;
      frameCount := frames;
      canvasWidth := width;
      canvasHeight := height;
      currentFrame := 0;
      cropRect := None;
      cursor := Default;
      dragging := false;
      moving := false;
      startPos := None;
      resizeEdges := None;
      originalCoords := None;
    }

    /** `on_motion`: with a selection present, the cursor for the mouse's position. */
    method OnMotion(p: Point)
      modifies this`cursor
      ensures cropRect.None? ==> cursor == old(cursor)
      ensures cropRect.Some? ==> cursor == CursorFor(p, cropRect.value)
    {
      if cropRect.Some? {
        cursor := CursorFor(p, cropRect.value);
      }
    }

    /**
      `on_left_press`: without a selection, start drawing a new one as a point at the
      press; on a grabbed edge, start resizing; inside the selection, start moving;
      elsewhere, nothing. The cursor shown at that position tells which: a resize cursor
      starts a resize, Fleur a move, Default nothing.
     */
    method OnLeftPress(p: Point)
      requires Valid()
      modifies this`cropRect, this`dragging, this`moving, this`startPos, this`resizeEdges, this`originalCoords
      ensures Valid()
      ensures old(cropRect).None? ==>
        cropRect == Some(Rect(p.x, p.y, p.x, p.y)) && dragging && startPos == Some(p) &&
        moving == old(moving) && resizeEdges == old(resizeEdges) && originalCoords == old(originalCoords)
      ensures old(cropRect).Some? ==> cropRect == old(cropRect)
      ensures old(cropRect).Some? && CheckResizeEdge(p, old(cropRect).value).Any() ==>
        dragging && moving == old(moving) && startPos == Some(p) &&
        resizeEdges == Some(CheckResizeEdge(p, old(cropRect).value)) && originalCoords == old(cropRect)
      ensures old(cropRect).Some? && CursorFor(p, old(cropRect).value) == Fleur ==>
        moving && !dragging && startPos == Some(p) &&
        resizeEdges == old(resizeEdges) && originalCoords == old(cropRect)
      ensures old(cropRect).Some? && CursorFor(p, old(cropRect).value) == Default ==>
        dragging == old(dragging) && moving == old(moving) && startPos == old(startPos) &&
        resizeEdges == old(resizeEdges) && originalCoords == old(originalCoords)
    {
      if cropRect.None? {
        dragging := true;
        startPos := Some(p);
        cropRect := Some(Rect(p.x, p.y, p.x, p.y));
        return;
      }
      var coords := cropRect.value;
      var edges := CheckResizeEdge(p, coords);
      if edges.Any() {
        dragging := true;
        resizeEdges := Some(edges);
        startPos := Some(p);
        originalCoords := Some(coords);
      } else if coords.Inside(p.x, p.y) {
        moving := true;
        dragging := false;
        startPos := Some(p);
        originalCoords := Some(coords);
      }
    }

    /**
      `on_drag`. While dragging with grabbed edges: the edge step from the original
      selection, then (ratio locked) the aspect-ratio step `keepAspect`, then the canvas
      clamp. While dragging without grabbed edges: the new selection from the press
      point. While moving: the moved original selection. Each new selection is copied
      to the spinboxes; otherwise nothing changes.
     */
    method OnDrag(p: Point, keepAspect: (Rect, Rect, Edges) -> Rect)
      requires Valid()
      modifies this`cropRect, master`spin
      ensures Valid()
      ensures dragging && startPos.Some? && resizeEdges.Some? ==>
        cropRect == Some(ResizeDrag(originalCoords.value, resizeEdges.value, startPos.value, p,
                                    master.maintainRatio, keepAspect, canvasWidth, canvasHeight))
      ensures dragging && startPos.Some? && resizeEdges.None? ==>
        cropRect == Some(NewSelection(startPos.value, p, master.maintainRatio))
      ensures !(dragging && startPos.Some?) && moving && startPos.Some? ==>
        cropRect == Some(MoveSelection(originalCoords.value, p.x - startPos.value.x, p.y - startPos.value.y,
                                       canvasWidth, canvasHeight))
      ensures (dragging || moving) && startPos.Some? ==>
        cropRect.Some? && master.spin == SpinboxesFor(cropRect.value)
      ensures !((dragging || moving) && startPos.Some?) ==>
        cropRect == old(cropRect) && master.spin == old(master.spin)
    {
      if dragging && startPos.Some? {
        var start := startPos.value;
        var selection: Rect;
        if resizeEdges.Some? {
          selection := ResizeDrag(originalCoords.value, resizeEdges.value, start, p,
                                  master.maintainRatio, keepAspect, canvasWidth, canvasHeight);
        } else {
          selection := NewSelection(start, p, master.maintainRatio);
        }
        cropRect := Some(selection);
        master.UpdateSpinboxes(selection);
      } else if moving && startPos.Some? {
        var start := startPos.value;
        var selection := MoveSelection(originalCoords.value, p.x - start.x, p.y - start.y, canvasWidth, canvasHeight);
        cropRect := Some(selection);
        master.UpdateSpinboxes(selection);
      }
    }

    /**
      `on_release`: the spinboxes take the selection, if there is one, and every drag
      flag and attribute is cleared, so the next drag event changes nothing until the
      next press.
     */
    method OnRelease()
      requires Valid()
      modifies this`dragging, this`moving, this`startPos, this`resizeEdges, this`originalCoords, master`spin
      ensures Valid()
      ensures !dragging && !moving && startPos == None && resizeEdges == None && originalCoords == None
      ensures cropRect.Some? ==> master.spin == SpinboxesFor(cropRect.value)
      ensures cropRect.None? ==> master.spin == old(master.spin)
    {
      if cropRect.Some? {
        master.UpdateSpinboxes(cropRect.value);
      }
      dragging := false;
      moving := false;
      startPos := None;
      resizeEdges := None;
      originalCoords := None;
    }

    /** `animate`: one tick advances to the next frame, wrapping after the last. */
    method Animate()
      requires Valid()
      modifies this`currentFrame
      ensures Valid()
      ensures frameCount > 0 ==> currentFrame == NextFrame(old(currentFrame), frameCount)
      ensures frameCount == 0 ==> currentFrame == old(currentFrame)
    {
      if frameCount > 0 {
        currentFrame := NextFrame(currentFrame, frameCount);
      }
    }

    /**
      `update_selection_from_inputs` for a change of X or Y, or of Width or Height with
      the ratio unlocked: with a selection present it moves to the rectangle the
      spinboxes describe.
     */
    method SelectionFromInputs()
      modifies this`cropRect
      ensures old(cropRect).Some? ==> cropRect == Some(SelectionOf(master.spin))
      ensures old(cropRect).None? ==> cropRect == None
    {
      if cropRect.Some? {
        cropRect := Some(SelectionOf(master.spin));
      }
    }

    /**
      `create_initial_selection` as written: it creates the centred selection and then
      calls `update_selection_from_inputs('ui')`, which moves the new item to the
      rectangle the spinboxes describe. The centred rectangle never survives.
     */
    method CreateInitialSelection()
      requires Valid()
      modifies this`cropRect
      ensures Valid()
      ensures frameCount > 0 ==> cropRect == Some(SelectionOf(master.spin))
      ensures frameCount == 0 ==> cropRect == old(cropRect)
    {
      if frameCount > 0 {
        cropRect := Some(InitialSelection(canvasWidth, canvasHeight));
        SelectionFromInputs();
      }
    }

    /**
      The initial selection as its comment describes it: centred on the canvas, with the
      spinboxes showing that same rectangle.
     */
    method CreateCentredSelection()
      requires Valid()
      modifies this`cropRect, master`spin
      ensures Valid()
      ensures frameCount > 0 ==>
        cropRect == Some(InitialSelection(canvasWidth, canvasHeight)) && SelectionOf(master.spin) == cropRect.value
      ensures frameCount == 0 ==> cropRect == old(cropRect) && master.spin == old(master.spin)
    {
      if frameCount > 0 {
        var selection := InitialSelection(canvasWidth, canvasHeight);
        cropRect := Some(selection);
        master.UpdateSpinboxes(selection);
      }
    }
  }

  /**
    On a 300-by-300 canvas with the spinboxes at their starting values, the rectangle
    `create_initial_selection` computes is (50, 50, 250, 250), but the selection it leaves
    is the spinboxes' (0, 0, 100, 100): not centred and not 200 pixels wide.
   */
  lemma InitialSelectionDiscarded()
    ensures SelectionOf(DefaultSpinboxes) == Rect(0, 0, 100, 100)
    ensures InitialSelection(300, 300) == Rect(50, 50, 250, 250)
  {
    FullSizeInitialSelection(300, 300);
    assert (300 - 200) / 2 == 50;
  }

  /** On a canvas of at least 220 by 220 pixels the initial selection is the full 200 by 200, centred. */
  lemma FullSizeInitialSelection(w: int, h: int)
    requires w >= 220 && h >= 220
    ensures InitialSelection(w, h) ==
      Rect((w - 200) / 2, (h - 200) / 2, (w - 200) / 2 + 200, (h - 200) / 2 + 200)
  {
    assert Min(200, w - 20) == 200 && Min(200, h - 20) == 200;
  }

  /**
    The corrected initial selection on any canvas at least 20 pixels each way is centred,
    keeps 10-pixel margins and is shown the same in the spinboxes, whatever they held.
   */
  lemma CentredSelectionAgrees(w: int, h: int, s: Spinboxes)
    requires w >= 20 && h >= 20
    ensures var r := InitialSelection(w, h);
      r.Width() >= 0 && r.Height() >= 0 &&
      0 <= (w - r.x2) - r.x1 <= 1 && 0 <= (h - r.y2) - r.y1 <= 1 &&
      SelectionOf(SpinboxesFor(r)) == r &&
      (s != SpinboxesFor(r) ==> SelectionOf(s) != r)
  {
    var r := InitialSelection(w, h);
    if s != SpinboxesFor(r) {
      SpinboxesRoundTrip(s);
    }
  }
}
