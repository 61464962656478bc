/** Sequences of events driven through the engine, the invariant every
    reachable state keeps, and the laws of the history and of the previews. */
module EngineProperties {
  import opened Canvas
  import opened Records
  import opened JsText
  import History
  import opened Engine

  /** One input delivered to the board. Pointer events carry the clock
      reading the handler would take. */
  datatype Event =
    | Down(at: Point, now: int)
    | Move(at: Point, now: int)
    | Up(now: int)
    | UndoClick
    | RedoClick
    | ClearClick
    | ChooseTool(tool: Mode)
    | TypeText(content: string)
    | SlideEraser(size: EraserSize)

  function Step(s: EngineState, e: Event): (r: EngineState)
    requires History.Valid(s.timeline)
    ensures History.Valid(r.timeline)
  {
    match e
    case Down(p, t) => PointerDown(s, p, t)
    case Move(p, t) => PointerMove(s, p, t)
    case Up(t) => PointerUp(s, t)
    case UndoClick => Undo(s)
    case RedoClick => Redo(s)
    case ClearClick => ClearCanvas(s)
    case ChooseTool(m) => SelectMode(s, m)
    case TypeText(t) => SetText(s, t)
    case SlideEraser(n) => SetEraserSize(s, n)
  }

  /** Feeds the events one after another; the cursor stays within
      `[-1, |history| - 1]` (and off -1 once a snapshot exists) throughout. */
  function Run(s: EngineState, evs: seq<Event>): (r: EngineState)
    requires History.Valid(s.timeline)
    ensures History.Valid(r.timeline)
    decreases |evs|
  {
    if |evs| == 0 then s else Run(Step(s, evs[0]), evs[1..])
  }

  /** What holds of every state the board can reach: the history cursor is in
      bounds, an idle board shows exactly the snapshot at the cursor, a
      drawing is in progress exactly when there is a current drawing, and the
      current drawing is in the log. */
  ghost predicate Inv(s: EngineState)
  {
    && History.Valid(s.timeline)
    && (!s.isDrawing ==> Synced(s))
    && (s.isDrawing <==> s.current != None)
    && (s.current != None ==> HasId(s.drawings, s.current.value.id))
  }

  lemma InitSatisfiesInv()
    ensures Inv(Init())
  {
  }

  lemma StepKeepsInv(s: EngineState, e: Event)
    requires Inv(s)
    ensures Inv(Step(s, e))
  {
    match e
    case Down(p, t) =>
      if !CommitsText(s) {
        var r := BeginStroke(s, p, t);
        assert r.drawings[|s.drawings|] == r.current.value;
      }
    case Move(p, t) =>
      if s.isDrawing && s.mode != TextTool {
        var r := Draw(s, p, t);
        var i :| 0 <= i < |s.drawings| && s.drawings[i].id == s.current.value.id;
        assert r.drawings[i].id == r.current.value.id;
      }
    case Up(t) =>
    case UndoClick =>
    case RedoClick =>
    case ClearClick =>
    case ChooseTool(m) =>
    case TypeText(c) =>
    case SlideEraser(n) =>
  }

  lemma {:induction false} RunKeepsInv(s: EngineState, evs: seq<Event>)
    requires Inv(s)
    ensures Inv(Run(s, evs))
    decreases |evs|
  {
    if |evs| > 0 {
      StepKeepsInv(s, evs[0]);
      RunKeepsInv(Step(s, evs[0]), evs[1..]);
    }
  }

  /** Every state reached from the freshly mounted board keeps the invariant;
      in particular, whenever no stroke is in progress the surface equals the
      snapshot at the cursor. */
  lemma ReachableStatesKeepInv(evs: seq<Event>)
    ensures Inv(Run(Init(), evs))
    // Part of `Inv`; repeated because it is the property the history exists for.
    ensures !Run(Init(), evs).isDrawing ==> Synced(Run(Init(), evs))
  {
    InitSatisfiesInv();
    RunKeepsInv(Init(), evs);
  }

  // ---------------------------------------------------------------- drawing-record ids

  /** The clock readings of the pointer-downs in `evs` are at least `t` and
      strictly increasing. */
  ghost predicate ClockFrom(evs: seq<Event>, t: int)
    decreases |evs|
  {
    if |evs| == 0 then true
    else match evs[0]
      case Down(_, n) => n >= t && ClockFrom(evs[1..], n + 1)
      case _ => ClockFrom(evs[1..], t)
  }

  ghost predicate IdsBefore(ds: seq<DrawingRecord>, t: int)
  {
    forall i :: 0 <= i < |ds| ==> ds[i].id < t
  }

  /** Finishing keeps every record's id in place. */
  lemma FinishKeepsIds(s: EngineState, now: int)
    ensures var r := FinishDrawing(s, now);
      forall i :: 0 <= i < |s.drawings| ==> r.drawings[i].id == s.drawings[i].id
  {
  }

  lemma DownKeepsIdsUnique(s: EngineState, p: Point, n: int)
    requires History.Valid(s.timeline)
    requires UniqueIds(s.drawings) && IdsBefore(s.drawings, n)
    ensures UniqueIds(PointerDown(s, p, n).drawings) && IdsBefore(PointerDown(s, p, n).drawings, n + 1)
  {
    if !CommitsText(s) {
      var r := BeginStroke(s, p, n);
      assert r.drawings == s.drawings + [NewRecord(s.mode, n)];
      AppendFreshKeepsUnique(s.drawings, NewRecord(s.mode, n));
    }
  }

  lemma UpKeepsIdsUnique(s: EngineState, n: int, t: int)
    requires History.Valid(s.timeline)
    requires UniqueIds(s.drawings) && IdsBefore(s.drawings, t)
    ensures UniqueIds(PointerUp(s, n).drawings) && IdsBefore(PointerUp(s, n).drawings, t)
  {
    FinishKeepsIds(s, n);
    var r := PointerUp(s, n);
    assert r.drawings == FinishDrawing(s, n).drawings;
    SameIdsKeepUnique(s.drawings, r.drawings, t);
  }

  /** A log whose ids are position by position those of another keeps its
      uniqueness and its bound. */
  lemma SameIdsKeepUnique(a: seq<DrawingRecord>, b: seq<DrawingRecord>, t: int)
    requires |a| == |b| && forall i :: 0 <= i < |a| ==> b[i].id == a[i].id
    requires UniqueIds(a) && IdsBefore(a, t)
    ensures UniqueIds(b) && IdsBefore(b, t)
  {
  }

  lemma StepKeepsIdsUnique(s: EngineState, e: Event, t: int)
    requires History.Valid(s.timeline)
    requires UniqueIds(s.drawings) && IdsBefore(s.drawings, t)
    requires e.Down? ==> e.now >= t
    ensures var r := Step(s, e);
      && UniqueIds(r.drawings)
      && IdsBefore(r.drawings, if e.Down? then e.now + 1 else t)
  {
    match e
    case Down(p, n) => DownKeepsIdsUnique(s, p, n);
    case Up(n) => UpKeepsIdsUnique(s, n, t);
    case Move(p, n) => assert PointerMove(s, p, n).drawings == s.drawings;
    case UndoClick => assert Undo(s).drawings == s.drawings;
    case RedoClick => assert Redo(s).drawings == s.drawings;
    case ClearClick => assert ClearCanvas(s).drawings == s.drawings;
    case ChooseTool(m) => assert SelectMode(s, m).drawings == s.drawings;
    case TypeText(c) => assert SetText(s, c).drawings == s.drawings;
    case SlideEraser(k) => assert SetEraserSize(s, k).drawings == s.drawings;
  }

  /** With a clock that never repeats a reading, the log's ids stay unique,
      so finishing a stroke refreshes exactly one record. */
  lemma {:induction false} RunKeepsIdsUnique(s: EngineState, evs: seq<Event>, t: int)
    requires History.Valid(s.timeline)
    requires UniqueIds(s.drawings) && IdsBefore(s.drawings, t)
    requires ClockFrom(evs, t)
    ensures UniqueIds(Run(s, evs).drawings)
    decreases |evs|
  {
    if |evs| > 0 {
      var next := NextClock(evs[0], t);
      FirstStepKeepsIdsUnique(s, evs, t);
      RunKeepsIdsUnique(Step(s, evs[0]), evs[1..], next);
    }
  }

  /** The clock bound after an event: a pointer-down uses up its reading. */
  function NextClock(e: Event, t: int): int
  {
    if e.Down? then e.now + 1 else t
  }

  /** The first event of a run on a well-behaved clock keeps ids unique and
      leaves the rest of the run on a well-behaved clock. */
  lemma FirstStepKeepsIdsUnique(s: EngineState, evs: seq<Event>, t: int)
    requires History.Valid(s.timeline) && |evs| > 0
    requires UniqueIds(s.drawings) && IdsBefore(s.drawings, t)
    requires ClockFrom(evs, t)
    ensures var r := Step(s, evs[0]);
      UniqueIds(r.drawings) && IdsBefore(r.drawings, NextClock(evs[0], t))
    ensures ClockFrom(evs[1..], NextClock(evs[0], t))
  {
    StepKeepsIdsUnique(s, evs[0], t);
  }

  /** Finishing replaces only the current drawing's record: at its position
      the record now carries the finishing time; everywhere else the log is
      unchanged. */
  lemma FinishTouchesOnlyCurrent(s: EngineState, now: int, k: int)
    requires UniqueIds(s.drawings) && s.current != None
    requires 0 <= k < |s.drawings| && s.drawings[k].id == s.current.value.id
    ensures var r := FinishDrawing(s, now);
      && r.drawings[k] == s.current.value.(updatedAt := now)
      && (forall j :: 0 <= j < |s.drawings| && j != k ==> r.drawings[j] == s.drawings[j])
  {
    var r := FinishDrawing(s, now);
    forall j | 0 <= j < |s.drawings| && j != k ensures r.drawings[j] == s.drawings[j] {
      if j < k { assert s.drawings[j].id != s.drawings[k].id; }
      else { assert s.drawings[k].id != s.drawings[j].id; }
    }
  }

  // ---------------------------------------------------------------- undo / redo

  /** The Undo button's enable condition is exactly when undo has an effect. */
  lemma UndoHasEffectIffEnabled(s: EngineState)
    requires History.Valid(s.timeline)
    ensures Undo(s) != s <==> CanUndo(s)
  {
    if CanUndo(s) { assert Undo(s).timeline.index != s.timeline.index; }
  }

  /** The Redo button's enable condition is exactly when redo has an effect. */
  lemma RedoHasEffectIffEnabled(s: EngineState)
    requires History.Valid(s.timeline)
    ensures Redo(s) != s <==> CanRedo(s)
  {
    if CanRedo(s) { assert Redo(s).timeline.index != s.timeline.index; }
  }

  /** Undo then redo returns to the same cursor and the same surface; on an
      idle reachable board, to the very same state. */
  lemma UndoThenRedoRestores(s: EngineState)
    requires History.Valid(s.timeline) && CanUndo(s)
    ensures Redo(Undo(s)).timeline == s.timeline
    ensures Redo(Undo(s)).surface == Baseline(s)
    ensures Synced(s) ==> Redo(Undo(s)) == s
  {
    History.UndoThenRedo(s.timeline);
  }

  /** Redo then undo returns to the same cursor and the same surface. */
  lemma RedoThenUndoRestores(s: EngineState)
    requires History.Valid(s.timeline) && CanRedo(s)
    ensures Undo(Redo(s)).timeline == s.timeline
    ensures Undo(Redo(s)).surface == Baseline(s)
    ensures Synced(s) ==> Undo(Redo(s)) == s
  {
    History.RedoThenUndo(s.timeline);
  }

  /** After an undo, each action that pushes a snapshot (a finished stroke, a
      committed text, a clear) discards the redoable snapshot: the snapshots
      before the undone one are kept, the new one takes the undone one's
      place, and redo is a no-op afterwards. */
  lemma PushAfterUndoDisablesRedo(s: EngineState, now: int, p: Point)
    requires History.Valid(s.timeline) && CanUndo(s)
    ensures var r := PointerUp(Undo(s), now);
      && |r.timeline.snapshots| == s.timeline.index + 1
      && r.timeline.snapshots[..s.timeline.index] == s.timeline.snapshots[..s.timeline.index]
      && !CanRedo(r) && Redo(r) == r
    ensures var r := ClearCanvas(Undo(s));
      && |r.timeline.snapshots| == s.timeline.index + 1
      && r.timeline.snapshots[..s.timeline.index] == s.timeline.snapshots[..s.timeline.index]
      && !CanRedo(r) && Redo(r) == r
    ensures var r := CommitText(Undo(s), p);
      && |r.timeline.snapshots| == s.timeline.index + 1
      && r.timeline.snapshots[..s.timeline.index] == s.timeline.snapshots[..s.timeline.index]
      && !CanRedo(r) && Redo(r) == r
  {
    var u := Undo(s);
    assert u.timeline.snapshots[..u.timeline.index + 1] == s.timeline.snapshots[..s.timeline.index];
  }

  // ---------------------------------------------------------------- previews

  /** Moves delivered one after another. */
  datatype Sample = Sample(at: Point, now: int)

  function Drag(s: EngineState, moves: seq<Sample>): (r: EngineState)
    requires History.Valid(s.timeline)
    ensures History.Valid(r.timeline)
    decreases |moves|
  {
    if |moves| == 0 then s
    else Drag(PointerMove(s, moves[0].at, moves[0].now), moves[1..])
  }

  predicate ShapeMode(m: Mode)
  {
    m == Line || m == Rectangle
  }

  /** A second line or rectangle move wipes out the first: the result depends
      only on the last move. */
  lemma SecondMoveOverridesFirst(s: EngineState, a: Sample, b: Sample)
    requires History.Valid(s.timeline)
    requires s.isDrawing && s.current != None && ShapeMode(s.mode)
    ensures PointerMove(PointerMove(s, a.at, a.now), b.at, b.now) == PointerMove(s, b.at, b.now)
  {
    var first := PointerMove(s, a.at, a.now);
    var direct := PointerMove(s, b.at, b.now);
    var second := PointerMove(first, b.at, b.now);
    assert first.current == Some(s.current.value.(updatedAt := a.now));
    assert second.surface == direct.surface && second.ctx == direct.ctx;
    assert second.current == direct.current;
  }

  /** However many intermediate positions a line or rectangle is dragged
      through, the state afterwards is the state after
      the last move alone — no outline of an earlier position remains. */
  lemma {:induction false} DragLeavesNoResidue(s: EngineState, moves: seq<Sample>)
    requires History.Valid(s.timeline)
    requires s.isDrawing && s.current != None && ShapeMode(s.mode)
    requires |moves| > 0
    ensures Drag(s, moves) == PointerMove(s, moves[|moves| - 1].at, moves[|moves| - 1].now)
    decreases |moves|
  {
    var s1 := PointerMove(s, moves[0].at, moves[0].now);
    if |moves| > 1 {
      DragLeavesNoResidue(s1, moves[1..]);
      SecondMoveOverridesFirst(s, moves[0], moves[|moves| - 1]);
    }
  }

  /** The surface after a drag is the snapshot at the cursor (or blank) with a
      single outline from the start point to the last position on top. */
  lemma DraggedShapeIsOneOutline(s: EngineState, moves: seq<Sample>)
    requires History.Valid(s.timeline)
    requires s.isDrawing && s.current != None && ShapeMode(s.mode)
    requires |moves| > 0
    ensures var last := moves[|moves| - 1].at;
      var kind := if s.mode == Line then LineShape else RectShape;
      Drag(s, moves).surface == Baseline(s) + [Stroke(OutlinePath(kind, s.startPoint, last), s.ctx.width, s.ctx.composite)]
  {
    DragLeavesNoResidue(s, moves);
  }

  /** Pressing, dragging through any positions and releasing at the last one
      leaves the same board as pressing, making one move to that position and
      releasing. */
  lemma ReleaseAfterDragMatchesSingleMove(s: EngineState, start: Point, t0: int, moves: seq<Sample>, t1: int)
    requires History.Valid(s.timeline)
    requires ShapeMode(s.mode)
    requires |moves| > 0
    ensures var pressed := PointerDown(s, start, t0);
      PointerUp(Drag(pressed, moves), t1) == PointerUp(Drag(pressed, [moves[|moves| - 1]]), t1)
  {
    var pressed := PointerDown(s, start, t0);
    DragLeavesNoResidue(pressed, moves);
    DragLeavesNoResidue(pressed, [moves[|moves| - 1]]);
  }

  /** Moves never touch the history or the log, never end the stroke and
      never change the tool or the compositing. */
  lemma {:induction false} DragKeepsHistoryAndLog(s: EngineState, moves: seq<Sample>)
    requires History.Valid(s.timeline)
    ensures var r := Drag(s, moves);
      && r.timeline == s.timeline && r.drawings == s.drawings
      && r.isDrawing == s.isDrawing && r.mode == s.mode
      && (r.current == None <==> s.current == None)
      && r.ctx.composite == s.ctx.composite
    decreases |moves|
  {
    if |moves| > 0 {
      DragKeepsHistoryAndLog(PointerMove(s, moves[0].at, moves[0].now), moves[1..]);
    }
  }

  // ---------------------------------------------------------------- whole strokes

  /** Pointer-down, any moves, pointer-up. */
  function Gesture(s: EngineState, start: Point, t0: int, moves: seq<Sample>, t1: int): (r: EngineState)
    requires History.Valid(s.timeline)
    ensures History.Valid(r.timeline)
  {
    PointerUp(Drag(PointerDown(s, start, t0), moves), t1)
  }

  /** On an idle board that already has a snapshot, any
      stroke or shape followed by one undo restores exactly the surface and
      the cursor from before, with the earlier snapshots untouched. */
  lemma GestureThenUndoRestores(s: EngineState, start: Point, t0: int, moves: seq<Sample>, t1: int)
    requires Inv(s) && !s.isDrawing && s.timeline.index >= 0
    requires !CommitsText(s)
    ensures var r := Undo(Gesture(s, start, t0, moves, t1));
      && r.surface == s.surface
      && r.timeline.index == s.timeline.index
      && r.timeline.snapshots[..s.timeline.index + 1] == s.timeline.snapshots[..s.timeline.index + 1]
  {
    var pressed := PointerDown(s, start, t0);
    assert pressed == BeginStroke(s, start, t0);
    DragKeepsHistoryAndLog(pressed, moves);
    var dragged := Drag(pressed, moves);
    var up := PointerUp(dragged, t1);
    assert Gesture(s, start, t0, moves, t1) == up;
    UndoAfterUpRestores(s, dragged, t1);
  }

  /** A release over an in-sync board's history, followed by an undo, shows
      the board's surface again with the same cursor and earlier snapshots. */
  lemma UndoAfterUpRestores(s: EngineState, dragged: EngineState, t1: int)
    requires History.Valid(s.timeline) && Synced(s) && s.timeline.index >= 0
    requires dragged.timeline == s.timeline
    ensures var r := Undo(PointerUp(dragged, t1));
      && r.surface == s.surface
      && r.timeline.index == s.timeline.index
      && r.timeline.snapshots[..s.timeline.index + 1] == s.timeline.snapshots[..s.timeline.index + 1]
  {
    var up := PointerUp(dragged, t1);
    assert up.timeline.snapshots[..s.timeline.index + 1] == s.timeline.snapshots[..s.timeline.index + 1];
    assert up.timeline.snapshots[s.timeline.index] == s.surface;
  }

  /** On the freshly mounted board no initial snapshot exists, so the first
      stroke leaves a one-snapshot history with the cursor at 0 and cannot be
      undone. */
  lemma FirstGestureCannotBeUndone(start: Point, t0: int, moves: seq<Sample>, t1: int)
    ensures var r := Gesture(Init(), start, t0, moves, t1);
      && |r.timeline.snapshots| == 1 && r.timeline.index == 0
      && !CanUndo(r) && Undo(r) == r
  {
    DragKeepsHistoryAndLog(PointerDown(Init(), start, t0), moves);
  }

  /** The eraser never leaves erase compositing behind: once its stroke ends
      the context paints over again, and the pen's next stroke paints over. */
  lemma EraserCompositingEndsWithStroke(s: EngineState, start: Point, t0: int, moves: seq<Sample>, t1: int, p: Point, t2: int)
    requires History.Valid(s.timeline) && s.mode == Eraser
    ensures var r := Gesture(s, start, t0, moves, t1);
      && r.ctx.composite == PaintOver
      && PointerDown(SelectMode(r, Pen), p, t2).ctx.composite == PaintOver
  {
    var pressed := PointerDown(s, start, t0);
    DragKeepsHistoryAndLog(pressed, moves);
  }

  /** Every stroke an eraser drag adds to the surface erases. */
  lemma {:induction false} EraserDragOnlyErases(s: EngineState, moves: seq<Sample>)
    requires History.Valid(s.timeline) && s.mode == Eraser && s.ctx.composite == Erase
    ensures var r := Drag(s, moves);
      && |s.surface| <= |r.surface| && r.surface[..|s.surface|] == s.surface
      && forall i :: |s.surface| <= i < |r.surface| ==> r.surface[i].Stroke? && r.surface[i].composite == Erase
    decreases |moves|
  {
    if |moves| > 0 {
      var s1 := PointerMove(s, moves[0].at, moves[0].now);
      EraserMoveOnlyErases(s, moves[0].at, moves[0].now);
      EraserDragOnlyErases(s1, moves[1..]);
      var r := Drag(s1, moves[1..]);
      assert Drag(s, moves) == r;
      assert r.surface[..|s1.surface|] == s1.surface;
      assert s1.surface[..|s.surface|] == s.surface;
    }
  }

  /** One eraser move adds at most one primitive, an erasing stroke, and
      keeps the tool and the compositing. */
  lemma EraserMoveOnlyErases(s: EngineState, p: Point, now: int)
    requires History.Valid(s.timeline) && s.mode == Eraser && s.ctx.composite == Erase
    ensures var r := PointerMove(s, p, now);
      && r.mode == Eraser && r.ctx.composite == Erase
      && (r.surface == s.surface || r.surface == s.surface + [Stroke(r.ctx.path, s.ctx.width, Erase)])
  {
  }

  // ---------------------------------------------------------------- text

  /** A click with visible text in text mode: pointer-down stamps it and
      pushes a snapshot, and the pointer-up that ends the click pushes a
      second snapshot of the same surface. No record is logged. */
  lemma TextClickPushesTwoSnapshots(s: EngineState, p: Point, t0: int, t1: int)
    requires Inv(s) && !s.isDrawing && CommitsText(s)
    ensures var r := PointerUp(PointerDown(s, p, t0), t1);
      var stamped := s.surface + [Text(p, s.text, s.ctx.composite)];
      && r.drawings == s.drawings
      && r.surface == stamped
      && r.timeline.snapshots == s.timeline.snapshots[..s.timeline.index + 1] + [stamped, stamped]
      && r.timeline.index == s.timeline.index + 2
      && r.text == "" && !r.isTextMode
  {
    assert PointerDown(s, p, t0) == CommitText(s, p);
    UpAfterCommit(s, p, t1);
  }

  /** The pointer-up after a text commit on a board with no current drawing
      pushes the stamped surface a second time and leaves the log alone. */
  lemma UpAfterCommit(s: EngineState, p: Point, t1: int)
    requires History.Valid(s.timeline) && s.current == None
    ensures var r := PointerUp(CommitText(s, p), t1);
      var stamped := s.surface + [Text(p, s.text, s.ctx.composite)];
      && r.drawings == s.drawings
      && r.surface == stamped
      && r.timeline.snapshots == s.timeline.snapshots[..s.timeline.index + 1] + [stamped, stamped]
      && r.timeline.index == s.timeline.index + 2
      && r.text == "" && !r.isTextMode
  {
    var stamped := s.surface + [Text(p, s.text, s.ctx.composite)];
    var down := CommitText(s, p);
    assert down.current == None && down.drawings == s.drawings && down.surface == stamped;
    var kept := s.timeline.snapshots[..s.timeline.index + 1];
    assert down.timeline.snapshots == kept + [stamped];
    UpWithoutStroke(down, t1, kept);
  }

  /** A release with no drawing in progress, just after a snapshot of the
      surface was pushed, leaves the log alone and pushes the surface again. */
  lemma UpWithoutStroke(s: EngineState, t1: int, kept: seq<Surface>)
    requires History.Valid(s.timeline) && s.current == None
    requires s.timeline.snapshots == kept + [s.surface] && s.timeline.index == |kept|
    ensures var r := PointerUp(s, t1);
      && r.drawings == s.drawings && r.surface == s.surface
      && r.timeline.snapshots == kept + [s.surface, s.surface]
      && r.timeline.index == s.timeline.index + 1
      && r.text == s.text && r.isTextMode == s.isTextMode
  {
    assert s.timeline.snapshots[..s.timeline.index + 1] == s.timeline.snapshots;
    assert PointerUp(s, t1).drawings == FinishDrawing(s, t1).drawings;
    assert (kept + [s.surface]) + [s.surface] == kept + [s.surface, s.surface];
  }

  /** A click in text mode with blank text commits nothing but still logs a
      record of the text tool and pushes a snapshot of the unchanged surface. */
  lemma BlankTextClickLogsRecord(s: EngineState, p: Point, t0: int, t1: int)
    requires Inv(s) && !s.isDrawing && s.mode == TextTool && IsBlank(s.text)
    requires IdsBefore(s.drawings, t0)
    ensures var r := PointerUp(PointerDown(s, p, t0), t1);
      && |r.drawings| == |s.drawings| + 1
      && r.drawings[..|s.drawings|] == s.drawings
      && r.drawings[|s.drawings|].mode == TextTool
      && r.surface == s.surface
      && r.timeline.snapshots == s.timeline.snapshots[..s.timeline.index + 1] + [s.surface]
  {
    assert !CommitsText(s);
    assert PointerDown(s, p, t0) == BeginStroke(s, p, t0);
    UpAfterStroke(s, p, t0, t1);
  }

  /** A press that begins a stroke followed straight away by a release: the
      new record stays in the log after every earlier one, which are left
      alone since their ids come before the press, and the unchanged surface
      is pushed once. */
  lemma UpAfterStroke(s: EngineState, p: Point, t0: int, t1: int)
    requires History.Valid(s.timeline) && IdsBefore(s.drawings, t0)
    ensures var r := PointerUp(BeginStroke(s, p, t0), t1);
      && |r.drawings| == |s.drawings| + 1
      && r.drawings[..|s.drawings|] == s.drawings
      && r.drawings[|s.drawings|].mode == s.mode
      && r.surface == s.surface
      && r.timeline.snapshots == s.timeline.snapshots[..s.timeline.index + 1] + [s.surface]
  {
    var down := BeginStroke(s, p, t0);
    var rec := down.current.value;
    assert down.drawings == s.drawings + [rec];
    var finished := FinishDrawing(down, t1);
    forall i | 0 <= i < |s.drawings| ensures finished.drawings[i] == s.drawings[i] {
      assert down.drawings[i] == s.drawings[i];
      assert down.drawings[i].id != rec.id;
    }
    assert finished.drawings[|s.drawings|] == rec.(updatedAt := t1);
    assert finished.drawings[..|s.drawings|] == s.drawings;
    assert PointerUp(down, t1).drawings == finished.drawings;
  }

  // ---------------------------------------------------------------- a session

  /** A shape dragged over an idle board and released adds exactly one
      outline, from the press to the last position, on top of what was
      shown, and records it as one snapshot; undo brings back the board as it
      was and redo the shape again. */
  lemma ShapeGestureAddsOneOutline(s: EngineState, m: Mode, a: Point, t0: int, moves: seq<Sample>, t1: int)
    requires History.Valid(s.timeline) && Synced(s) && ShapeMode(m)
    requires |moves| > 0
    ensures var r := Gesture(SelectMode(s, m), a, t0, moves, t1);
      var kind := if m == Line then LineShape else RectShape;
      var outline := Stroke(OutlinePath(kind, a, moves[|moves| - 1].at), s.lineWidth, PaintOver);
      && r.surface == Baseline(s) + [outline]
      && r.timeline.snapshots == s.timeline.snapshots[..s.timeline.index + 1] + [r.surface]
      && r.timeline.index == s.timeline.index + 1
      && (s.timeline.index >= 0 ==> Undo(r).surface == s.surface && Redo(Undo(r)).surface == r.surface)
  {
    var dragged := Drag(PointerDown(SelectMode(s, m), a, t0), moves);
    ShapeDragEndsWithOneOutline(s, m, a, t0, moves);
    assert Gesture(SelectMode(s, m), a, t0, moves, t1) == PointerUp(dragged, t1);
    UndoAfterPushRestores(s, dragged, t1);
  }

  /** The drag part of a shape gesture on an idle board: one outline from the
      press to the last position over what was shown, history untouched. */
  lemma ShapeDragEndsWithOneOutline(s: EngineState, m: Mode, a: Point, t0: int, moves: seq<Sample>)
    requires History.Valid(s.timeline) && Synced(s) && ShapeMode(m)
    requires |moves| > 0
    ensures var dragged := Drag(PointerDown(SelectMode(s, m), a, t0), moves);
      var kind := if m == Line then LineShape else RectShape;
      && dragged.surface == Baseline(s) + [Stroke(OutlinePath(kind, a, moves[|moves| - 1].at), s.lineWidth, PaintOver)]
      && dragged.timeline == s.timeline && dragged.isDrawing
  {
    var pressed := PointerDown(SelectMode(s, m), a, t0);
    PressingWithShapeTool(s, m, a, t0);
    DraggedShapeIsOneOutline(pressed, moves);
    DragKeepsHistoryAndLog(pressed, moves);
  }

  /** Pressing with the line or rectangle tool starts a paint-over stroke
      with the line width, anchored at the press, without touching history. */
  lemma PressingWithShapeTool(s: EngineState, m: Mode, a: Point, t0: int)
    requires History.Valid(s.timeline) && ShapeMode(m)
    ensures var pressed := PointerDown(SelectMode(s, m), a, t0);
      && pressed.timeline == s.timeline && pressed.isDrawing && pressed.current != None
      && pressed.mode == m && pressed.startPoint == a
      && pressed.ctx.composite == PaintOver && pressed.ctx.width == s.lineWidth
  {
    var chosen := SelectMode(s, m);
    assert !CommitsText(chosen);
  }

  /** A release over an in-sync board's history pushes the released surface
      right after the board's snapshot; undoing it brings the board's surface
      back, and redoing brings the pushed one back. */
  lemma UndoAfterPushRestores(s: EngineState, dragged: EngineState, t1: int)
    requires History.Valid(s.timeline) && Synced(s)
    requires dragged.timeline == s.timeline
    ensures var r := PointerUp(dragged, t1);
      && r.surface == dragged.surface
      && r.timeline.snapshots == s.timeline.snapshots[..s.timeline.index + 1] + [r.surface]
      && r.timeline.index == s.timeline.index + 1
      && (s.timeline.index >= 0 ==> Undo(r).surface == s.surface && Redo(Undo(r)).surface == r.surface)
  {
    var r := PointerUp(dragged, t1);
    if s.timeline.index >= 0 {
      assert r.timeline.snapshots[s.timeline.index] == s.timeline.snapshots[s.timeline.index];
      UndoThenRedoRestores(r);
    }
  }

  /** The first pen stroke on the freshly mounted board, from (10,10) to
      (100,10): the history then holds that stroke alone, at index 0. */
  lemma FirstPenStroke()
    ensures var pen := Gesture(Init(), Point(10, 10), 1, [Sample(Point(100, 10), 2)], 3);
      && pen.surface == [Stroke([Point(10, 10), Point(100, 10)], 3, PaintOver)]
      && pen.timeline.snapshots == [pen.surface] && pen.timeline.index == 0
      && !pen.isDrawing && pen.lineWidth == 3
  {
    var s0 := Init();
    var down := PointerDown(s0, Point(10, 10), 1);
    assert !CommitsText(s0);
    assert down.isDrawing && down.current != None && down.mode == Pen;
    assert down.ctx == Ctx(PaintOver, 3, [Point(10, 10)]) && down.surface == [];
    var moved := PointerMove(down, Point(100, 10), 2);
    assert moved == Draw(down, Point(100, 10), 2);
    assert down.ctx.path + [Point(100, 10)] == [Point(10, 10), Point(100, 10)];
    assert moved.surface == [Stroke([Point(10, 10), Point(100, 10)], 3, PaintOver)];
    assert Drag(down, [Sample(Point(100, 10), 2)]) == moved;
  }

  /** The board after the first pen stroke: in sync with its one snapshot,
      which holds the pen stroke alone. */
  lemma PenStrokeBoard(pen: EngineState)
    requires pen == Gesture(Init(), Point(10, 10), 1, [Sample(Point(100, 10), 2)], 3)
    ensures History.Valid(pen.timeline) && Synced(pen)
    ensures pen.surface == [Stroke([Point(10, 10), Point(100, 10)], 3, PaintOver)]
    ensures pen.timeline.snapshots == [pen.surface] && pen.timeline.index == 0 && pen.lineWidth == 3
  {
    FirstPenStroke();
    ReachableInvForGesture(pen);
  }

  /** A session on the board: `PenStrokeBoard` describes
      (the pen stroke above), then a rectangle dragged from (20,20) through
      (40,40) to (60,60). The rectangle leaves a single outline, undo brings
      back the pen stroke alone and redo the rectangle again. */
  lemma PenThenRectangleSession(pen: EngineState)
    requires History.Valid(pen.timeline) && Synced(pen)
    requires pen.surface == [Stroke([Point(10, 10), Point(100, 10)], 3, PaintOver)]
    requires pen.timeline.snapshots == [pen.surface] && pen.timeline.index == 0 && pen.lineWidth == 3
    ensures var rect := Gesture(SelectMode(pen, Rectangle), Point(20, 20), 4,
                                [Sample(Point(40, 40), 5), Sample(Point(60, 60), 6)], 7);
      var outline := Stroke(OutlinePath(RectShape, Point(20, 20), Point(60, 60)), 3, PaintOver);
      && rect.surface == pen.surface + [outline]
      && |rect.timeline.snapshots| == 2 && rect.timeline.index == 1
      && Undo(rect).surface == pen.surface && Undo(rect).timeline.index == 0
      && Redo(Undo(rect)).surface == pen.surface + [outline]
  {
    var moves := [Sample(Point(40, 40), 5), Sample(Point(60, 60), 6)];
    ShapeGestureAddsOneOutline(pen, Rectangle, Point(20, 20), 4, moves, 7);
    assert moves[|moves| - 1].at == Point(60, 60);
    assert Baseline(pen) == pen.surface;
  }

  /** The first pen stroke leaves an idle board that keeps the invariant. */
  lemma ReachableInvForGesture(pen: EngineState)
    requires pen == Gesture(Init(), Point(10, 10), 1, [Sample(Point(100, 10), 2)], 3)
    ensures Inv(pen)
  {
    var evs := [Down(Point(10, 10), 1), Move(Point(100, 10), 2), Up(3)];
    ReachableStatesKeepInv(evs);
    var s0 := Init();
    var down := PointerDown(s0, Point(10, 10), 1);
    var moved := PointerMove(down, Point(100, 10), 2);
    assert Drag(down, [Sample(Point(100, 10), 2)]) == moved;
    assert Run(s0, evs) == Run(Step(s0, evs[0]), evs[1..]);
    assert Run(down, evs[1..]) == Run(moved, evs[2..]);
    assert Run(moved, evs[2..]) == Run(PointerUp(moved, 3), []);
  }
}
