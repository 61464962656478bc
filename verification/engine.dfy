/** The drawing board's engine: every event handler of the component as one
    atomic transition from an `EngineState` to the next. */
module Engine {
  import opened Canvas
  import opened Records
  import opened JsText
  import History

  const DefaultLineWidth: nat := 3

  /** The eraser slider's range. */
  type EraserSize = n: nat | 5 <= n <= 50 witness 10

  const DefaultEraserSize: EraserSize := 10

  datatype EngineState = EngineState(
    isDrawing: bool,
    mode: Mode,
    startPoint: Point,
    text: string,
    isTextMode: bool,
    drawings: seq<DrawingRecord>,
    current: Option<DrawingRecord>,
    timeline: History.Timeline<Surface>,
    lineWidth: nat,
    eraserSize: EraserSize,
    surface: Surface,
    ctx: Ctx)

  /** The component after mount: pen selected, nothing logged, an empty
      history with index -1 and a blank canvas. No initial snapshot is taken. */
  function Init(): (s: EngineState)
    ensures History.Valid(s.timeline) && s.timeline.index == -1
    ensures !s.isDrawing && s.current == None && s.drawings == []
    ensures s.surface == Blank
    ensures s.mode == Pen && s.text == "" && !s.isTextMode
    ensures s.lineWidth == 3 && s.eraserSize == 10 && s.ctx == Ctx(PaintOver, 3, [])
  {
    EngineState(
      false, Pen, Point(0, 0), "", false, [], None,
      History.Empty(), DefaultLineWidth, DefaultEraserSize,
      Blank, InitialCtx(DefaultLineWidth))
  }

  /** What the surface shows when nothing is being authored: the snapshot
      under the cursor, or a blank surface before the first snapshot. */
  function Baseline(s: EngineState): Surface
    requires History.Valid(s.timeline)
  {
    if s.timeline.index >= 0 then s.timeline.snapshots[s.timeline.index] else Blank
  }

  /** The surface equals the snapshot at the cursor. */
  predicate Synced(s: EngineState)
    requires History.Valid(s.timeline)
  {
    s.surface == Baseline(s)
  }

  predicate CanUndo(s: EngineState)
  {
    History.CanUndo(s.timeline)
  }

  predicate CanRedo(s: EngineState)
  {
    History.CanRedo(s.timeline)
  }

  // ---------------------------------------------------------------- history

  /** `saveToHistory`: captures the surface as a new snapshot after the cursor,
      dropping any redoable snapshots. Nothing but the history changes. */
  function SaveToHistory(s: EngineState): (r: EngineState)
    requires History.Valid(s.timeline)
    ensures History.Valid(r.timeline) && Synced(r)
    ensures r.timeline.snapshots == s.timeline.snapshots[..s.timeline.index + 1] + [s.surface]
    ensures r.timeline.index == s.timeline.index + 1
    ensures !CanRedo(r)
    ensures r.(timeline := s.timeline) == s
  {
    s.(timeline := History.Push(s.timeline, s.surface))
  }

  /** `undo`: with the cursor at or before the first snapshot nothing changes;
      otherwise the cursor steps back and the surface shows that snapshot. */
  function Undo(s: EngineState): (r: EngineState)
    requires History.Valid(s.timeline)
    ensures History.Valid(r.timeline)
    ensures !CanUndo(s) ==> r == s
    ensures CanUndo(s) ==>
      && r.timeline.index == s.timeline.index - 1
      && r.timeline.snapshots == s.timeline.snapshots
      && Synced(r)
      && r.(timeline := s.timeline, surface := s.surface) == s
  {
    if s.timeline.index <= 0 then s
    else
      var t := History.Undo(s.timeline);
      s.(timeline := t, surface := t.snapshots[t.index])
  }

  /** `redo`: with the cursor on the last snapshot nothing changes; otherwise
      the cursor steps forward and the surface shows that snapshot. */
  function Redo(s: EngineState): (r: EngineState)
    requires History.Valid(s.timeline)
    ensures History.Valid(r.timeline)
    ensures !CanRedo(s) ==> r == s
    ensures CanRedo(s) ==>
      && r.timeline.index == s.timeline.index + 1
      && r.timeline.snapshots == s.timeline.snapshots
      && Synced(r)
      && r.(timeline := s.timeline, surface := s.surface) == s
  {
    if s.timeline.index >= |s.timeline.snapshots| - 1 then s
    else
      var t := History.Redo(s.timeline);
      s.(timeline := t, surface := t.snapshots[t.index])
  }

  /** `clearCanvas`: blanks the surface and records the blank surface as one
      more undoable snapshot; the history is not reset. */
  function ClearCanvas(s: EngineState): (r: EngineState)
    requires History.Valid(s.timeline)
    ensures History.Valid(r.timeline)
    ensures r.surface == Blank
    ensures r.timeline.snapshots == s.timeline.snapshots[..s.timeline.index + 1] + [Blank]
    ensures r.timeline.index == s.timeline.index + 1
    ensures r.(surface := s.surface, timeline := s.timeline) == s
  {
    SaveToHistory(s.(surface := Blank))
  }

  // ---------------------------------------------------------------- painting

  /** `clearRect` over the whole canvas: the surface is blank, whatever the
      compositing; nothing else changes. */
  function ClearRect(s: EngineState): (r: EngineState)
    ensures r.surface == Blank
    ensures r.(surface := s.surface) == s
  {
    s.(surface := Blank)
  }

  /** `redrawHistory`: puts back the snapshot under the cursor, if there is one. */
  function RedrawHistory(s: EngineState): (r: EngineState)
    requires History.Valid(s.timeline)
    ensures r.(surface := s.surface) == s
    ensures s.timeline.index >= 0 ==> Synced(r)
    ensures s.timeline.index < 0 ==> r == s
  {
    if s.timeline.index >= 0 then s.(surface := s.timeline.snapshots[s.timeline.index]) else s
  }

  /** `drawLine` / `drawRectangle`: the preview is redrawn from the baseline,
      so whatever the surface showed before (an earlier preview included)
      leaves no trace; only the context's path changes besides the surface. */
  function DrawShape(s: EngineState, kind: ShapeKind, a: Point, b: Point): (r: EngineState)
    requires History.Valid(s.timeline)
    ensures r.surface == Baseline(s) + [Stroke(OutlinePath(kind, a, b), s.ctx.width, s.ctx.composite)]
    ensures r.ctx.composite == s.ctx.composite && r.ctx.width == s.ctx.width
    ensures r.(surface := s.surface, ctx := s.ctx) == s
  {
    var restored := RedrawHistory(ClearRect(s));
    var outlined := restored.(ctx := restored.ctx.(path := OutlinePath(kind, a, b)));
    outlined.(surface := StrokeCurrentPath(outlined.surface, outlined.ctx),
              ctx := outlined.ctx.(path := ClosePath(outlined.ctx.path)))
  }

  /** `drawLine`: the segment a-b over the baseline; the path is left closed. */
  function DrawLine(s: EngineState, a: Point, b: Point): (r: EngineState)
    requires History.Valid(s.timeline)
    ensures r.surface == Baseline(s) + [Stroke([a, b], s.ctx.width, s.ctx.composite)]
    ensures r.ctx == s.ctx.(path := [a, b, a])
    ensures r.(surface := s.surface, ctx := s.ctx) == s
  {
    DrawShape(s, LineShape, a, b)
  }

  /** `drawRectangle`: one closed rectangle outline over the baseline,
      visiting all four corners of the box spanned by `a` and `b`. */
  function DrawRectangle(s: EngineState, a: Point, b: Point): (r: EngineState)
    requires History.Valid(s.timeline)
    ensures |r.surface| == |Baseline(s)| + 1 && r.surface[..|Baseline(s)|] == Baseline(s)
    ensures var outline := r.surface[|Baseline(s)|];
      && outline.Stroke? && outline.width == s.ctx.width && outline.composite == s.ctx.composite
      && |outline.path| == 5 && outline.path[0] == a && outline.path[|outline.path| - 1] == a
      && (forall c :: IsCorner(c, a, b) ==> c in outline.path)
      && (forall i :: 0 <= i < |outline.path| ==> IsCorner(outline.path[i], a, b))
      && (forall i :: 0 <= i < |outline.path| - 1 ==>
            outline.path[i].x == outline.path[i + 1].x || outline.path[i].y == outline.path[i + 1].y)
    ensures r.ctx == s.ctx.(path := ClosePath(OutlinePath(RectShape, a, b)))
    ensures r.(surface := s.surface, ctx := s.ctx) == s
  {
    DrawShape(s, RectShape, a, b)
  }

  /** `addText`: stamps the text with its baseline at `at` (20px Arial, black),
      under whatever compositing the context has. */
  function AddText(s: EngineState, at: Point, content: string): (r: EngineState)
    ensures |r.surface| == |s.surface| + 1 && r.surface[..|s.surface|] == s.surface
    ensures r.surface[|s.surface|] == Text(at, content, s.ctx.composite)
    ensures r.(surface := s.surface) == s
  {
    s.(surface := s.surface + [Text(at, content, s.ctx.composite)])
  }

  // ---------------------------------------------------------------- pointer events

  /** Pointer-down commits text exactly in text mode with visible pending text. */
  predicate CommitsText(s: EngineState)
  {
    s.mode == TextTool && !IsBlank(s.text)
  }

  /** The text commit of `startDrawing`: the pending text is stamped at `p`,
      emptied, text mode is disarmed and exactly one snapshot is pushed;
      no record is logged and drawing does not start. */
  function CommitText(s: EngineState, p: Point): (r: EngineState)
    requires History.Valid(s.timeline)
    ensures History.Valid(r.timeline) && Synced(r)
    ensures r.timeline.snapshots == s.timeline.snapshots[..s.timeline.index + 1] + [r.surface]
    ensures r.timeline.index == s.timeline.index + 1
    ensures r.surface == s.surface + [Text(p, s.text, s.ctx.composite)]
    ensures r.text == "" && !r.isTextMode
    ensures r.(timeline := s.timeline, surface := s.surface, text := s.text, isTextMode := s.isTextMode) == s
  {
    var stamped := AddText(s, p, s.text);
    SaveToHistory(stamped.(text := "", isTextMode := false))
  }

  /** Every other pointer-down: one new record is logged and becomes the
      current drawing, the start point is anchored, drawing starts, a path is
      begun at `p`, and erase compositing with the eraser size is selected
      exactly for the eraser (paint-over with the line width otherwise). */
  function BeginStroke(s: EngineState, p: Point, now: int): (r: EngineState)
    ensures |r.drawings| == |s.drawings| + 1
    ensures r.drawings[..|s.drawings|] == s.drawings
    ensures r.current == Some(r.drawings[|s.drawings|])
    ensures r.current.value.id == now && r.current.value.mode == s.mode
    ensures r.current.value.createdAt == now && r.current.value.updatedAt == now
    ensures r.current.value.points == []
    ensures r.isDrawing && r.startPoint == p
    ensures r.ctx.composite == Erase <==> s.mode == Eraser
    ensures r.ctx.width == (if s.mode == Eraser then s.eraserSize else s.lineWidth)
    ensures r.ctx.path == [p]
    ensures r.(drawings := s.drawings, current := s.current, isDrawing := s.isDrawing,
               startPoint := s.startPoint, ctx := s.ctx) == s
  {
    var rec := NewRecord(s.mode, now);
    var styled :=
      if s.mode == Eraser then s.ctx.(composite := Erase, width := s.eraserSize)
      else s.ctx.(composite := PaintOver, width := s.lineWidth);
    s.(current := Some(rec), drawings := s.drawings + [rec], isDrawing := true,
       startPoint := p, ctx := styled.(path := [p]))
  }

  /** `startDrawing`: the guard `drawMode === 'text' && text.trim()` chooses
      between committing the text and beginning a stroke. */
  function StartDrawing(s: EngineState, p: Point, now: int): (r: EngineState)
    requires History.Valid(s.timeline)
    ensures History.Valid(r.timeline)
    ensures CommitsText(s) ==> r == CommitText(s, p)
    ensures !CommitsText(s) ==> r == BeginStroke(s, p, now)
  {
    TrimEmptyIffBlank(s.text);
    if s.mode == TextTool && Trim(s.text) != "" then CommitText(s, p)
    else BeginStroke(s, p, now)
  }

  /** `draw`. Outside a stroke nothing happens. Otherwise the current
      drawing's update time is refreshed and: the pen and the eraser extend
      the path to `p` and stroke it on top of what is there (earlier ink is
      kept); the line and rectangle tools redraw their outline from the start
      point over the baseline. History and log are left alone. */
  function Draw(s: EngineState, p: Point, now: int): (r: EngineState)
    requires History.Valid(s.timeline)
    ensures History.Valid(r.timeline)
    ensures !s.isDrawing || s.current == None ==> r == s
    ensures s.isDrawing && s.current != None ==>
      && r.current == Some(s.current.value.(updatedAt := now))
      && r.timeline == s.timeline && r.drawings == s.drawings
      && r.isDrawing && r.mode == s.mode && r.startPoint == s.startPoint
      && r.ctx.composite == s.ctx.composite && r.ctx.width == s.ctx.width
      && (s.mode == Pen || s.mode == Eraser ==>
            && r.ctx.path == s.ctx.path + [p]
            && r.surface == s.surface + [Stroke(s.ctx.path + [p], s.ctx.width, s.ctx.composite)])
      && (s.mode == Line ==>
            && r.surface == Baseline(s) + [Stroke(OutlinePath(LineShape, s.startPoint, p), s.ctx.width, s.ctx.composite)]
            && r.ctx.path == ClosePath(OutlinePath(LineShape, s.startPoint, p)))
      && (s.mode == Rectangle ==>
            && r.surface == Baseline(s) + [Stroke(OutlinePath(RectShape, s.startPoint, p), s.ctx.width, s.ctx.composite)]
            && r.ctx.path == ClosePath(OutlinePath(RectShape, s.startPoint, p)))
      && (s.mode == TextTool ==> r.surface == s.surface && r.ctx == s.ctx)
    ensures r.ctx.composite == s.ctx.composite && r.ctx.width == s.ctx.width
    ensures && r.isDrawing == s.isDrawing && r.mode == s.mode && r.startPoint == s.startPoint
            && r.text == s.text && r.isTextMode == s.isTextMode && r.drawings == s.drawings
            && r.timeline == s.timeline && r.lineWidth == s.lineWidth && r.eraserSize == s.eraserSize
  {
    if !s.isDrawing then s
    else match s.current
      case None => s
      case Some(c) =>
        var touched := s.(current := Some(c.(updatedAt := now)));
        if s.mode == Pen || s.mode == Eraser then
          var extended := touched.(ctx := touched.ctx.(path := touched.ctx.path + [p]));
          extended.(surface := StrokeCurrentPath(extended.surface, extended.ctx))
        else if s.mode == Line then DrawLine(touched, s.startPoint, p)
        else if s.mode == Rectangle then DrawRectangle(touched, s.startPoint, p)
        else touched
  }

  /** `finishDrawing`: the record whose id is the current drawing's is
      replaced by the current drawing with a fresh update time; every other
      record stays as it was and the log keeps its length. The current
      drawing is cleared, and after the eraser the compositing goes back to
      paint-over. The surface and the history are not touched. */
  function FinishDrawing(s: EngineState, now: int): (r: EngineState)
    ensures |r.drawings| == |s.drawings|
    ensures r.current == None
    ensures s.current == None ==> r.drawings == s.drawings
    ensures s.current != None ==>
      forall i :: 0 <= i < |s.drawings| ==>
        r.drawings[i] == (if s.drawings[i].id == s.current.value.id
                          then s.current.value.(updatedAt := now) else s.drawings[i])
    ensures s.mode == Eraser ==> r.ctx == s.ctx.(composite := PaintOver)
    ensures s.mode != Eraser ==> r.ctx == s.ctx
    ensures r.(drawings := s.drawings, current := s.current, ctx := s.ctx) == s
  {
    var logged :=
      match s.current
      case Some(c) => s.(drawings := ReplaceById(s.drawings, c.id, c.(updatedAt := now)), current := None)
      case None => s;
    if s.mode == Eraser then logged.(ctx := logged.ctx.(composite := PaintOver)) else logged
  }

  /** `handleMouseDown` / `handleTouchStart` (coordinates already canvas-local):
      the press position goes to `startDrawing` unchanged. */
  function PointerDown(s: EngineState, p: Point, now: int): (r: EngineState)
    requires History.Valid(s.timeline)
    ensures History.Valid(r.timeline)
    ensures CommitsText(s) ==> r.surface == s.surface + [Text(p, s.text, s.ctx.composite)] && !r.isTextMode
    ensures !CommitsText(s) ==> r.isDrawing && r.startPoint == p && r.ctx.path == [p] && r.surface == s.surface
    ensures r == StartDrawing(s, p, now)
  {
    StartDrawing(s, p, now)
  }

  /** `handleMouseMove` / `handleTouchMove`: moves reach `draw` only while
      drawing and outside text mode; every other move is ignored. */
  function PointerMove(s: EngineState, p: Point, now: int): (r: EngineState)
    requires History.Valid(s.timeline)
    ensures History.Valid(r.timeline)
    ensures !s.isDrawing || s.mode == TextTool ==> r == s
    ensures s.isDrawing && s.mode != TextTool ==> r == Draw(s, p, now)
  {
    if s.isDrawing && s.mode != TextTool then Draw(s, p, now) else s
  }

  /** `handleMouseUp` / `handleTouchEnd`: finishes the drawing, stops drawing
      and pushes a snapshot of the surface, whether or not anything was drawn. */
  function PointerUp(s: EngineState, now: int): (r: EngineState)
    requires History.Valid(s.timeline)
    ensures History.Valid(r.timeline) && Synced(r)
    ensures !r.isDrawing && r.current == None
    ensures r.surface == s.surface
    ensures r.timeline.snapshots == s.timeline.snapshots[..s.timeline.index + 1] + [s.surface]
    ensures r.timeline.index == s.timeline.index + 1
    ensures r.drawings == FinishDrawing(s, now).drawings
    ensures r.ctx.composite == (if s.mode == Eraser then PaintOver else s.ctx.composite)
    ensures r.ctx == FinishDrawing(s, now).ctx
    ensures && r.mode == s.mode && r.startPoint == s.startPoint
            && r.text == s.text && r.isTextMode == s.isTextMode
            && r.lineWidth == s.lineWidth && r.eraserSize == s.eraserSize
  {
    SaveToHistory(FinishDrawing(s, now).(isDrawing := false))
  }

  // ---------------------------------------------------------------- toolbar

  /** A tool button: selects the tool; the text button also arms text mode. */
  function SelectMode(s: EngineState, m: Mode): (r: EngineState)
    ensures r.mode == m
    ensures m == TextTool ==> r.isTextMode
    ensures m != TextTool ==> r.isTextMode == s.isTextMode
    ensures r.(mode := s.mode, isTextMode := s.isTextMode) == s
  {
    if m == TextTool then s.(mode := m, isTextMode := true) else s.(mode := m)
  }

  /** The text box: replaces the pending text. */
  function SetText(s: EngineState, t: string): EngineState
  {
    s.(text := t)
  }

  /** The eraser slider. */
  function SetEraserSize(s: EngineState, n: EraserSize): EngineState
  {
    s.(eraserSize := n)
  }
}
