/**
  The integer geometry of the preview window's crop selection in gif_gui.py: edge
  hit-testing, the cursor shown over the selection, dragging an edge, the canvas clamp,
  moving, drawing a new selection, the initial centred selection, and the conversion
  between the selection and the position/size spinboxes of the main window.

  Canvas coordinates are integers here; mouse events deliver integers, and the only
  source of fractional coordinates (the aspect-ratio step of a resize drag) is a
  parameter of the preview window's drag handler.
 */
module SelectionGeometry {

  /** The selection as `canvas.coords` reports it: [x1, y1, x2, y2]. */
  datatype Rect = Rect(x1: int, y1: int, x2: int, y2: int) {

    function Width(): int { x2 - x1 }

    function Height(): int { y2 - y1 }

    /** The closed box test used to start a move and to pick the move cursor. */
    predicate Inside(px: int, py: int) {
      x1 <= px <= x2 && y1 <= py <= y2
    }
  }

  /** A mouse position on the canvas. */
  datatype Point = Point(x: int, y: int)

  /** How close to an edge, in pixels, a mouse must be to grab it. */
  const EdgeThreshold: int := 10

  /** The smallest width or height a resize drag leaves, and the canvas-clamp margin. */
  const MinSize: int := 10

  function Abs(a: int): nat {
    if a < 0 then -a else a
  }

  function Min(a: int, b: int): int {
    if a <= b then a else b
  }

  function Max(a: int, b: int): int {
    if a >= b then a else b
  }

  // ---------------------------------------------------------------------------
  // Hit-testing and the cursor

  /** The four flags `check_resize_edge` returns. */
  datatype Edges = Edges(left: bool, right: bool, top: bool, bottom: bool) {
    predicate Any() {
      left || right || top || bottom
    }
  }

  /**
    `check_resize_edge(event, coords)`: an edge is grabbed when the mouse lies strictly
    within EdgeThreshold of it, and within the other axis's extent widened by
    EdgeThreshold on both sides. On a selection at least twice the threshold wide
    (or high) the two opposite edges can never both be grabbed.
   */
  function CheckResizeEdge(p: Point, c: Rect): (e: Edges)
    ensures e.left <==> c.x1 - EdgeThreshold < p.x < c.x1 + EdgeThreshold &&
                        c.y1 - EdgeThreshold <= p.y <= c.y2 + EdgeThreshold
    ensures e.right <==> c.x2 - EdgeThreshold < p.x < c.x2 + EdgeThreshold &&
                         c.y1 - EdgeThreshold <= p.y <= c.y2 + EdgeThreshold
    ensures e.top <==> c.y1 - EdgeThreshold < p.y < c.y1 + EdgeThreshold &&
                       c.x1 - EdgeThreshold <= p.x <= c.x2 + EdgeThreshold
    ensures e.bottom <==> c.y2 - EdgeThreshold < p.y < c.y2 + EdgeThreshold &&
                          c.x1 - EdgeThreshold <= p.x <= c.x2 + EdgeThreshold
    ensures c.Width() >= 2 * EdgeThreshold ==> !(e.left && e.right)
    ensures c.Height() >= 2 * EdgeThreshold ==> !(e.top && e.bottom)
  {
    var nearLeft := Abs(p.x - c.x1) < EdgeThreshold;
    var nearRight := Abs(p.x - c.x2) < EdgeThreshold;
    var nearTop := Abs(p.y - c.y1) < EdgeThreshold;
    var nearBottom := Abs(p.y - c.y2) < EdgeThreshold;
    var inVerticalBound := c.y1 - EdgeThreshold <= p.y <= c.y2 + EdgeThreshold;
    var inHorizontalBound := c.x1 - EdgeThreshold <= p.x <= c.x2 + EdgeThreshold;
    Edges(nearLeft && inVerticalBound, nearRight && inVerticalBound,
          nearTop && inHorizontalBound, nearBottom && inHorizontalBound)
  }

  /** The canvas cursors `on_motion` chooses between; Default is the empty cursor name. */
  datatype Cursor = SizeNwSe | SizeNeSw | SizeWe | SizeNs | Fleur | Default

  /**
    The cursor of `on_motion`. A grabbed corner (one horizontal and one vertical edge)
    wins over a single edge, a single edge over the interior, and the interior move
    cursor over the default. SizeNwSe is tested first: it is shown whenever the top-left
    or the bottom-right corner is grabbed, also when a selection narrower or shorter
    than twice the threshold lets opposite edges be grabbed together. On a single corner
    the diagonal cursor follows that corner's diagonal.
   */
  function CursorFor(p: Point, c: Rect): (k: Cursor)
    ensures var e := CheckResizeEdge(p, c);
      ((e.left || e.right) && (e.top || e.bottom) <==> k == SizeNwSe || k == SizeNeSw) &&
      (k == SizeNwSe <==> (e.left && e.top) || (e.right && e.bottom)) &&
      (k == SizeNeSw <==> !((e.left && e.top) || (e.right && e.bottom)) &&
                          ((e.right && e.top) || (e.left && e.bottom))) &&
      (e.left != e.right && e.top != e.bottom ==> (k == SizeNwSe <==> e.left == e.top)) &&
      (k == SizeWe <==> (e.left || e.right) && !e.top && !e.bottom) &&
      (k == SizeNs <==> (e.top || e.bottom) && !e.left && !e.right) &&
      (k == Fleur <==> !e.Any() && c.Inside(p.x, p.y)) &&
      (k == Default <==> !e.Any() && !c.Inside(p.x, p.y))
  {
    var e := CheckResizeEdge(p, c);
    if (e.left && e.top) || (e.right && e.bottom) then SizeNwSe
    else if (e.right && e.top) || (e.left && e.bottom) then SizeNeSw
    else if e.left || e.right then SizeWe
    else if e.top || e.bottom then SizeNs
    else if c.Inside(p.x, p.y) then Fleur
    else Default
  }

  // ---------------------------------------------------------------------------
  // Dragging

  /**
    The edge step of a resize drag, before the aspect-ratio step: each grabbed edge
    follows the mouse offset (dx, dy) from the original selection, except that a left
    or top edge stops MinSize short of the opposite original edge and a right or bottom
    edge MinSize beyond it. Edges not grabbed stay where they were. When only one of two
    opposite edges moves, the selection keeps at least MinSize along that axis.
   */
  function ResizeEdges(orig: Rect, e: Edges, dx: int, dy: int): (r: Rect)
    ensures !e.left ==> r.x1 == orig.x1
    ensures !e.right ==> r.x2 == orig.x2
    ensures !e.top ==> r.y1 == orig.y1
    ensures !e.bottom ==> r.y2 == orig.y2
    ensures e.left ==> r.x1 <= orig.x2 - MinSize && r.x1 <= orig.x1 + dx &&
                       (r.x1 == orig.x1 + dx || r.x1 == orig.x2 - MinSize)
    ensures e.right ==> r.x2 >= orig.x1 + MinSize && r.x2 >= orig.x2 + dx &&
                        (r.x2 == orig.x2 + dx || r.x2 == orig.x1 + MinSize)
    ensures e.top ==> r.y1 <= orig.y2 - MinSize && r.y1 <= orig.y1 + dy &&
                      (r.y1 == orig.y1 + dy || r.y1 == orig.y2 - MinSize)
    ensures e.bottom ==> r.y2 >= orig.y1 + MinSize && r.y2 >= orig.y2 + dy &&
                         (r.y2 == orig.y2 + dy || r.y2 == orig.y1 + MinSize)
    ensures e.left != e.right ==> r.Width() >= MinSize
    ensures e.top != e.bottom ==> r.Height() >= MinSize
  {
    var x1 := if e.left then Min(orig.x2 - MinSize, orig.x1 + dx) else orig.x1;
    var x2 := if e.right then Max(orig.x1 + MinSize, orig.x2 + dx) else orig.x2;
    var y1 := if e.top then Min(orig.y2 - MinSize, orig.y1 + dy) else orig.y1;
    var y2 := if e.bottom then Max(orig.y1 + MinSize, orig.y2 + dy) else orig.y2;
    Rect(x1, y1, x2, y2)
  }

  /**
    The canvas clamp that ends a resize drag: the top-left corner is kept within
    [0, size - MinSize] and the bottom-right within [MinSize, size] on each axis (on a
    canvas smaller than MinSize the lower bound wins). A coordinate already in its range
    is left alone; one outside it lands on the bound it crossed.
   */
  function ClampToCanvas(r: Rect, cw: int, ch: int): (c: Rect)
    ensures 0 <= c.x1 && 0 <= c.y1 && MinSize <= c.x2 && MinSize <= c.y2
    ensures cw >= MinSize ==> c.x1 <= cw - MinSize && c.x2 <= cw
    ensures ch >= MinSize ==> c.y1 <= ch - MinSize && c.y2 <= ch
    ensures 0 <= r.x1 <= cw - MinSize ==> c.x1 == r.x1
    ensures 0 <= r.y1 <= ch - MinSize ==> c.y1 == r.y1
    ensures MinSize <= r.x2 <= cw ==> c.x2 == r.x2
    ensures MinSize <= r.y2 <= ch ==> c.y2 == r.y2
    ensures r.x1 < 0 || cw < MinSize ==> c.x1 == 0
    ensures r.y1 < 0 || ch < MinSize ==> c.y1 == 0
    ensures cw >= MinSize && r.x1 > cw - MinSize ==> c.x1 == cw - MinSize
    ensures ch >= MinSize && r.y1 > ch - MinSize ==> c.y1 == ch - MinSize
    ensures r.x2 < MinSize || cw < MinSize ==> c.x2 == MinSize
    ensures r.y2 < MinSize || ch < MinSize ==> c.y2 == MinSize
    ensures cw >= MinSize && r.x2 > cw ==> c.x2 == cw
    ensures ch >= MinSize && r.y2 > ch ==> c.y2 == ch
  {
    Rect(Max(0, Min(r.x1, cw - MinSize)), Max(0, Min(r.y1, ch - MinSize)),
         Max(MinSize, Min(r.x2, cw)), Max(MinSize, Min(r.y2, ch)))
  }

  /** Clamping a clamped selection changes nothing. */
  lemma ClampIdempotent(r: Rect, cw: int, ch: int)
    requires cw >= MinSize && ch >= MinSize
    ensures ClampToCanvas(ClampToCanvas(r, cw, ch), cw, ch) == ClampToCanvas(r, cw, ch)
  {
  }

  /**
    A whole resize drag step of `on_drag`: the edge step from the original selection by
    the mouse offset from the press point, then, with the ratio locked, the
    aspect-ratio step `keepAspect` (original, stepped, edges), then the canvas clamp.
    Whatever the aspect-ratio step yields, the result lies on the canvas.
   */
  function ResizeDrag(orig: Rect, e: Edges, start: Point, p: Point, locked: bool,
                      keepAspect: (Rect, Rect, Edges) -> Rect, cw: int, ch: int): (r: Rect)
    ensures 0 <= r.x1 && 0 <= r.y1 && MinSize <= r.x2 && MinSize <= r.y2
    ensures cw >= MinSize ==> r.x1 <= cw - MinSize && r.x2 <= cw
    ensures ch >= MinSize ==> r.y1 <= ch - MinSize && r.y2 <= ch
    ensures !locked ==> r == ClampToCanvas(ResizeEdges(orig, e, p.x - start.x, p.y - start.y), cw, ch)
    ensures locked ==>
      r == ClampToCanvas(keepAspect(orig, ResizeEdges(orig, e, p.x - start.x, p.y - start.y), e), cw, ch)
  {
    var stepped := ResizeEdges(orig, e, p.x - start.x, p.y - start.y);
    var shaped := if locked then keepAspect(orig, stepped, e) else stepped;
    ClampToCanvas(shaped, cw, ch)
  }

  /**
    A move drag: the selection keeps its width and height, its top-left corner follows
    the mouse offset but never leaves the canvas on the left or top, and it does not
    pass the right or bottom border whenever it fits on the canvas. An offset that would
    cross a border puts the selection against that border; a selection wider (or
    higher) than the canvas goes against the left (or top) border.
   */
  function MoveSelection(orig: Rect, dx: int, dy: int, cw: int, ch: int): (r: Rect)
    ensures r.Width() == orig.Width() && r.Height() == orig.Height()
    ensures r.x1 >= 0 && r.y1 >= 0
    ensures orig.Width() <= cw ==> r.x2 <= cw
    ensures orig.Height() <= ch ==> r.y2 <= ch
    ensures 0 <= orig.x1 + dx <= cw - orig.Width() ==> r.x1 == orig.x1 + dx
    ensures 0 <= orig.y1 + dy <= ch - orig.Height() ==> r.y1 == orig.y1 + dy
    ensures orig.x1 + dx < 0 || cw < orig.Width() ==> r.x1 == 0
    ensures orig.y1 + dy < 0 || ch < orig.Height() ==> r.y1 == 0
    ensures 0 <= cw - orig.Width() < orig.x1 + dx ==> r.x1 == cw - orig.Width()
    ensures 0 <= ch - orig.Height() < orig.y1 + dy ==> r.y1 == ch - orig.Height()
  {
    var x1 := Max(0, Min(orig.x1 + dx, cw - orig.Width()));
    var y1 := Max(0, Min(orig.y1 + dy, ch - orig.Height()));
    Rect(x1, y1, x1 + orig.Width(), y1 + orig.Height())
  }

  /**
    Drawing a new selection from the press point `start` to the mouse `p`. The result
    is ordered (x1 <= x2, y1 <= y2), contains the mouse, and has the press point as the
    corner opposite the drag direction (a mouse level with the press point counts as
    dragging towards smaller coordinates). Unlocked it is the bounding box of the two
    points; with the ratio locked it is a square whose side is the larger of the two
    offsets.
   */
  function NewSelection(start: Point, p: Point, locked: bool): (r: Rect)
    ensures r.x1 <= r.x2 && r.y1 <= r.y2
    ensures r.Inside(p.x, p.y)
    ensures (p.x > start.x ==> r.x1 == start.x) && (p.x <= start.x ==> r.x2 == start.x)
    ensures (p.y > start.y ==> r.y1 == start.y) && (p.y <= start.y ==> r.y2 == start.y)
    ensures !locked ==> r == Rect(Min(start.x, p.x), Min(start.y, p.y), Max(start.x, p.x), Max(start.y, p.y))
    ensures locked ==> r.Width() == r.Height() == Max(Abs(p.x - start.x), Abs(p.y - start.y))
  {
    var w0 := Abs(p.x - start.x);
    var h0 := Abs(p.y - start.y);
    var width := if locked then (if w0 > h0 then w0 else h0) else w0;
    var height := if locked then (if w0 > h0 then w0 else h0) else h0;
    var ex := start.x + (if p.x > start.x then width else -width);
    var ey := start.y + (if p.y > start.y then height else -height);
    Rect(Min(start.x, ex), Min(start.y, ey), Max(start.x, ex), Max(start.y, ey))
  }

  /**
    `create_initial_selection` on a w-by-h canvas: a box min(200, w - 20) wide and
    min(200, h - 20) high, centred (the two margins differ by at most one pixel, the
    right or bottom one being the larger) and at least 10 pixels from every border.
   */
  function InitialSelection(w: int, h: int): (r: Rect)
    ensures r.Width() == Min(200, w - 20) && r.Height() == Min(200, h - 20)
    ensures r.x1 >= 10 && r.x2 <= w - 10 && r.y1 >= 10 && r.y2 <= h - 10
    ensures 0 <= (w - r.x2) - r.x1 <= 1 && 0 <= (h - r.y2) - r.y1 <= 1
  {
    var selWidth := Min(200, w - 20);
    var selHeight := Min(200, h - 20);
    var x := (w - selWidth) / 2;
    var y := (h - selHeight) / 2;
    Rect(x, y, x + selWidth, y + selHeight)
  }

  // ---------------------------------------------------------------------------
  // The position and size spinboxes

  /** The main window's X, Y, Width and Height spinboxes. */
  datatype Spinboxes = Spinboxes(x: int, y: int, width: int, height: int)

  /** The values the X, Y, Width and Height spinboxes start with. */
  const DefaultSpinboxes: Spinboxes := Spinboxes(0, 0, 100, 100)

  /**
    The rectangle the spinboxes describe, as `update_selection_from_inputs` places it:
    top-left at (x, y), `width` wide and `height` high.
   */
  function SelectionOf(s: Spinboxes): (c: Rect)
    ensures c.x1 == s.x && c.y1 == s.y && c.Width() == s.width && c.Height() == s.height
  {
    Rect(s.x, s.y, s.x + s.width, s.y + s.height)
  }

  /**
    `update_spinboxes(coords)`: the spinbox values for a selection. They describe the
    selection exactly: reading them back gives the same rectangle.
   */
  function SpinboxesFor(c: Rect): (s: Spinboxes)
    ensures SelectionOf(s) == c
  {
    Spinboxes(c.x1, c.y1, c.x2 - c.x1, c.y2 - c.y1)
  }

  /** Every spinbox setting is the one its own rectangle produces. */
  lemma SpinboxesRoundTrip(s: Spinboxes)
    ensures SpinboxesFor(SelectionOf(s)) == s
  {
  }

  // ---------------------------------------------------------------------------
  // Animation

  /** The frame `animate` shows next: the following one, wrapping after the last. */
  function NextFrame(current: int, n: nat): (k: int)
    requires n > 0
    ensures 0 <= k < n
    ensures 0 <= current < n - 1 ==> k == current + 1
    ensures current == n - 1 ==> k == 0
  {
    (current + 1) % n
  }

  /** The frame shown after `steps` ticks of `animate` starting from `current`. */
  function AdvanceFrames(current: int, n: nat, steps: nat): int
    requires n > 0
  {
    if steps == 0 then current else NextFrame(AdvanceFrames(current, n, steps - 1), n)
  }

  /** Ticks compose: a + b ticks are a ticks followed by b ticks. */
  lemma {:induction false} AdvanceFramesAdd(current: int, n: nat, a: nat, b: nat)
    requires n > 0
    ensures AdvanceFrames(current, n, a + b) == AdvanceFrames(AdvanceFrames(current, n, a), n, b)
  {
    if b > 0 {
      AdvanceFramesAdd(current, n, a, b - 1);
    }
  }

  /** Before the last frame is passed, each tick shows the following frame. */
  lemma {:induction false} AdvanceFramesCount(current: int, n: nat, steps: nat)
    requires n > 0 && 0 <= current && current + steps < n
    ensures AdvanceFrames(current, n, steps) == current + steps
  {
    if steps > 0 {
      AdvanceFramesCount(current, n, steps - 1);
    }
  }

  /**
    Every n ticks the animation is back at the frame it started from, and in between it
    shows the frames current + 1, ..., n - 1, 0, ..., current - 1 in that order.
   */
  lemma AnimationCycles(current: int, n: nat, s: nat)
    requires n > 0 && 0 <= current < n && s <= n
    ensures AdvanceFrames(current, n, s) == if current + s < n then current + s else current + s - n
  {
    if current + s < n {
      AdvanceFramesCount(current, n, s);
    } else {
      var toLast := n - 1 - current;
      AdvanceFramesCount(current, n, toLast);
      AdvanceFramesAdd(current, n, toLast + 1, s - toLast - 1);
      assert AdvanceFrames(current, n, toLast + 1) == 0;
      AdvanceFramesCount(0, n, s - toLast - 1);
    }
  }
}
