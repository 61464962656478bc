# Drawing board engine

A Dafny model of the drawing and history engine of the `DrawingBoard` React component
(`Client/src/components/DrawingBoard.jsx`). It covers four things:

- the linear undo/redo history of canvas snapshots, with its `historyIndex` cursor;
- the pointer-event state machine (`startDrawing`, `draw`, `finishDrawing` and the mouse/touch handlers), which dispatches on the tool: pen, line, rectangle, text or eraser;
- the log of drawing records (`drawings`, `currentDrawing`);
- the restore-then-redraw preview of lines and rectangles.

The canvas is modelled as a value. A `Surface` is the sequence of primitives painted since the canvas was last blanked: strokes of a path with a width and a compositing mode, and text stamps. `getImageData` is a value copy of that sequence and `putImageData` replaces it whole. `Ctx` holds the parts of the 2D context that the engine changes: `globalCompositeOperation`, `lineWidth` and the current path. Pen and eraser moves extend the path and stroke all of it again, as `lineTo` + `stroke()` do on a canvas. The line and rectangle tools stroke `OutlinePath(kind, start, p)` over the baseline.

Each handler is one atomic transition from an `EngineState` to the next. React's deferred `setState` is not modelled.

Modules:

- `Canvas`: points, primitives, the surface and outline geometry.
- `JsText`: JavaScript `trim`.
- `History`: a generic snapshot list with a cursor.
- `Records`: drawing records and the replace-by-id map.
- `Engine`: the handlers.
- `EngineProperties`: the event type, `Step`/`Run`, the reachable-state invariant, and the laws relating several handlers.

Almost every handler requires `History.Valid(timeline)`. This requires `-1 <= historyIndex < |history|`, and the index is off -1 once a snapshot exists. The component relies on this without checking it: it indexes `history[historyIndex]`. `ReachableStatesKeepInv` proves that the condition holds in every state reachable from `Init()`.

Timestamps (`Date.now()`, `toLocaleString`, `toISOString`) are abstract integer clock readings. The handlers take them as a `now` parameter. A record's id is the reading taken when the record was created.

## Behaviour worth knowing

Each of these follows from the code as written, and the model keeps it.

- **No initial snapshot.** The component starts with `history = []` and `historyIndex = -1`, and `loadInitialData` is empty (DrawingBoard.jsx:14-15, 33-36). The first finished stroke therefore produces a one-snapshot history with the cursor at 0. That stroke leaves `history.length == 1` and `historyIndex == 0` (`FirstPenStroke`), and it cannot be undone (`FirstGestureCannotBeUndone`).
- **Text commits log no record.** A text commit appends no drawing record (DrawingBoard.jsx:107-114).
- **A text click pushes two snapshots.** The pointer-down pushes one, and the pointer-up that ends the click pushes a second copy of the same surface (`TextClickPushesTwoSnapshots`).
- **A blank-text click still logs and pushes.** In text mode with blank text, a click falls through to the stroke path. It logs a record of the text tool and pushes a snapshot (`BlankTextClickLogsRecord`).
- **Pointer-up always pushes.** This holds even with no stroke in progress (DrawingBoard.jsx:80-84).
- **A click without a move paints nothing.** `finishDrawing` never strokes, so a pen click without a move adds no dot. The pointer-up still pushes a snapshot.
- **Drag equivalence is against one move.** Because of the previous point, a dragged shape equals pressing, making one move to the last position and releasing (`ReleaseAfterDragMatchesSingleMove`). It does not equal pressing and releasing with no move.
- **Text takes the context's current compositing.** Text is stamped under whatever compositing the context currently has. The eraser's compositing is reset at pointer-up only if the tool is still the eraser then.

## Model

| member | source | states |
|---|---|---|
| Canvas.OutlinePath | Client/src/components/DrawingBoard.jsx:181-198 | A line outline is the segment from start to current point. A rectangle outline is `rect(x, y, w, h)`'s closed 5-vertex loop: (x, y), (x+w, y), the far corner, (x, y+h), back to (x, y). It visits all four corners of the box, every vertex is a corner and every edge is axis-parallel, whatever the signs of width and height. |
| Canvas.RectangleSpansBothCorners | Client/src/components/DrawingBoard.jsx:195 | `rect(x1, y1, x2-x1, y2-y1)` covers exactly the box between the two corners. Every vertex lies inside it, and the minimum and maximum x and y are all reached, also for negative width or height. |
| JsText.TrimStart | Client/src/components/DrawingBoard.jsx:108 | The result is a suffix of the input. Everything dropped is white space, and the result does not start with white space. |
| JsText.TrimEnd | Client/src/components/DrawingBoard.jsx:108 | The result is a prefix of the input. Everything dropped is white space, and the result does not end with white space. |
| JsText.TrimEmptyIffBlank | Client/src/components/DrawingBoard.jsx:108 | `text.trim()` is empty if and only if every character is JavaScript white space. |
| History.Empty | Client/src/components/DrawingBoard.jsx:14-15 | The initial history is the empty list with cursor -1. It satisfies the cursor bounds, and both undo and redo are disabled. |
| History.Push | Client/src/components/DrawingBoard.jsx:39-49 | Truncation law: `history[0..historyIndex]` is kept and the new snapshot follows it, so the length becomes old index + 2. The cursor moves to the last index, redo is disabled, and undo is enabled exactly when a snapshot existed before. |
| History.Undo | Client/src/components/DrawingBoard.jsx:52-58 | At index <= 0 nothing changes. Otherwise the cursor drops by exactly one and redo becomes possible. The list never changes. |
| History.Redo | Client/src/components/DrawingBoard.jsx:61-67 | At index >= length-1 nothing changes. Otherwise the cursor rises by exactly one and undo becomes possible. The list never changes. |
| History.UndoThenRedo | Client/src/components/DrawingBoard.jsx:52-67 | When undo is enabled, undo followed by redo restores the history exactly. |
| History.RedoThenUndo | Client/src/components/DrawingBoard.jsx:52-67 | When redo is enabled, redo followed by undo restores the history exactly. |
| History.UndoThenPushReplacesRedoable | Client/src/components/DrawingBoard.jsx:39-58 | Take N snapshots with the cursor at the tail. After one undo and one push there are still N snapshots. The earlier ones are unchanged, the redoable one is replaced, and redo is disabled. |
| Records.ReplaceById | Client/src/components/DrawingBoard.jsx:166-170 | `map` by id: the length is kept, every record with the id becomes the replacement, and every other record stays in place. |
| Records.ReplaceByIdTouchesOnlyMatch | Client/src/components/DrawingBoard.jsx:164-173 | With unique ids, exactly the matched record changes, all ids stay in place, and ids stay unique. |
| Records.AppendFreshKeepsUnique | Client/src/components/DrawingBoard.jsx:116-124 | Appending a record whose id is later than every logged id keeps the ids unique, and the log then contains the new id. |
| Engine.Init | Client/src/components/DrawingBoard.jsx:7-25 | After mount, nothing is being drawn, the log is empty, the cursor is -1 and the canvas is blank. No snapshot is taken. The pen is selected, the text is empty, text mode is off, the line width is 3, the eraser size is 10, and the context paints over at width 3 with no path. |
| Engine.SaveToHistory | Client/src/components/DrawingBoard.jsx:39-49 | The new history is the old history up to the cursor followed by a capture of the surface. The cursor is on the capture, redo is disabled, and nothing but the history changes. |
| Engine.Undo | Client/src/components/DrawingBoard.jsx:52-58 | With undo disabled, the state is unchanged. Otherwise the cursor drops by one and the surface is the snapshot now under the cursor. Only the cursor and the surface change. |
| Engine.Redo | Client/src/components/DrawingBoard.jsx:61-67 | With redo disabled, the state is unchanged. Otherwise the cursor rises by one and the surface is the snapshot now under the cursor. Only the cursor and the surface change. |
| Engine.ClearCanvas | Client/src/components/DrawingBoard.jsx:213-218 | The surface becomes blank and a blank snapshot is pushed after the cursor. The history is not reset, and nothing else changes. |
| Engine.ClearRect | Client/src/components/DrawingBoard.jsx:182 | `clearRect` over the whole canvas leaves it blank whatever was painted, and changes nothing else. |
| Engine.RedrawHistory | Client/src/components/DrawingBoard.jsx:201-205 | With a snapshot under the cursor, the surface becomes that snapshot, so the board is in sync with its history. At cursor -1 nothing changes. Only the surface is ever touched. |
| Engine.DrawLine | Client/src/components/DrawingBoard.jsx:181-189 | The surface is the snapshot at the cursor (blank at -1) with one stroke of the segment a-b, in the context's width and compositing. The path is left closed back at a. Nothing else changes. |
| Engine.DrawRectangle | Client/src/components/DrawingBoard.jsx:191-198 | The surface is the snapshot at the cursor (blank at -1) with exactly one more stroke, in the context's width and compositing. That stroke is a 5-vertex loop from a back to a that visits all four corners of the box spanned by a and b and nothing else, along axis-parallel edges only. The context keeps its compositing and width, and its path becomes that closed rectangle. Nothing else changes. |
| Engine.AddText | Client/src/components/DrawingBoard.jsx:207-211 | The surface gains exactly one text stamp of the given text at (x, y), in the context's current compositing, after everything already painted. Nothing else changes. |
| Engine.DrawShape | Client/src/components/DrawingBoard.jsx:181-205 | A preview is the snapshot at the cursor (blank at -1) with exactly one outline on top. It does not depend on the previous surface. Only the surface and the context path change. |
| Engine.CommitText | Client/src/components/DrawingBoard.jsx:107-114 | Text commit: the text is stamped at (x, y), the pending text is emptied, text mode is disarmed, and exactly one snapshot of the stamped surface is pushed. The log, the current drawing and `isDrawing` are untouched. |
| Engine.BeginStroke | Client/src/components/DrawingBoard.jsx:116-141 | Exactly one record is appended and becomes `currentDrawing`. Its id, `createdAt` and `updatedAt` are the press time, its mode is the tool and it has no points. The start point is set and `isDrawing` is set. Erase compositing with `eraserSize` is chosen if and only if the tool is the eraser; otherwise paint-over with `lineWidth`. The path starts at the press. Nothing else changes. |
| Engine.StartDrawing | Client/src/components/DrawingBoard.jsx:107-141 | Pointer-down commits text exactly when the tool is text and the text is not blank. Otherwise it begins a stroke. |
| Engine.Draw | Client/src/components/DrawingBoard.jsx:143-162 | Outside a stroke, nothing changes. The pen and eraser extend the path and stroke it on top of the existing surface, so earlier ink is kept. Line and rectangle draw the baseline plus one outline from the start point and leave that outline, closed, as the path. The text tool paints nothing. The current drawing's update time is refreshed; besides it, only the surface and the context path can change. |
| Engine.FinishDrawing | Client/src/components/DrawingBoard.jsx:164-179 | Only records whose id is the current drawing's are replaced, and the log length is kept. The current drawing is cleared. Compositing returns to paint-over exactly when the tool is the eraser. The surface and the history are untouched. |
| Engine.PointerDown | Client/src/components/DrawingBoard.jsx:70-73 | A mouse press, like a touch start (lines 87-92), hands its position to `startDrawing` unchanged, so the result is exactly `startDrawing`'s. With visible text in text mode it stamps the text there and disarms text mode. Otherwise a stroke starts at the press, with the path at the press and the surface untouched. |
| Engine.PointerMove | Client/src/components/DrawingBoard.jsx:75-78 | A move is ignored when not drawing or in text mode. Otherwise it is `draw`. The history cursor stays in bounds. |
| Engine.PointerUp | Client/src/components/DrawingBoard.jsx:80-84 | Pointer-up finishes the drawing, clears `isDrawing` and always pushes exactly one snapshot of the unchanged surface. The board is then in sync with its history. The context is the one `finishDrawing` leaves. The tool, start point, text, text mode, line width and eraser size are unchanged. |
| Engine.SelectMode | Client/src/components/DrawingBoard.jsx:223-255 | A tool button selects the tool. The text button also arms text mode, and no other field changes. |
| EngineProperties.Step | Client/src/components/DrawingBoard.jsx:52-114 | Every handler keeps the history cursor within its bounds. |
| EngineProperties.Run | Client/src/components/DrawingBoard.jsx:14-15 | Over any sequence of events, the cursor stays in `[-1, length-1]`, and it is off -1 once a snapshot exists. |
| EngineProperties.InitSatisfiesInv | Client/src/components/DrawingBoard.jsx:7-17 | The mounted board satisfies the reachable-state invariant. |
| EngineProperties.StepKeepsInv | Client/src/components/DrawingBoard.jsx:39-218 | Every handler preserves the invariant: the cursor is in bounds, an idle board shows the snapshot at the cursor, a drawing is in progress exactly when there is a current drawing, and the current drawing is in the log. |
| EngineProperties.RunKeepsInv | Client/src/components/DrawingBoard.jsx:39-218 | Any sequence of events preserves the invariant. |
| EngineProperties.ReachableStatesKeepInv | Client/src/components/DrawingBoard.jsx:14-15 | Every state reachable from mount keeps the invariant. Whenever no stroke is in progress, the surface equals `history[historyIndex]`, or blank at -1. |
| EngineProperties.FinishKeepsIds | Client/src/components/DrawingBoard.jsx:164-173 | Finishing keeps every record's id at its position. |
| EngineProperties.DownKeepsIdsUnique | Client/src/components/DrawingBoard.jsx:107-124 | With a fresh clock reading, pointer-down keeps ids unique and below the next reading. |
| EngineProperties.UpKeepsIdsUnique | Client/src/components/DrawingBoard.jsx:80-84 | Pointer-up keeps ids unique. |
| EngineProperties.StepKeepsIdsUnique | Client/src/components/DrawingBoard.jsx:107-179 | Every handler keeps ids unique given a fresh clock reading at pointer-down. |
| EngineProperties.RunKeepsIdsUnique | Client/src/components/DrawingBoard.jsx:117 | With a clock whose readings at pointer-down strictly increase, the log's ids stay unique over any run. |
| EngineProperties.FinishTouchesOnlyCurrent | Client/src/components/DrawingBoard.jsx:164-173 | With unique ids, finishing changes exactly the current drawing's record, to the current drawing with the finishing time. Every other record is unchanged. |
| EngineProperties.UndoHasEffectIffEnabled | Client/src/components/DrawingBoard.jsx:52-58 | Undo changes the state if and only if the Undo button is enabled (`historyIndex > 0`, line 271). |
| EngineProperties.RedoHasEffectIffEnabled | Client/src/components/DrawingBoard.jsx:61-67 | Redo changes the state if and only if the Redo button is enabled (`historyIndex < length-1`, line 278). |
| EngineProperties.UndoThenRedoRestores | Client/src/components/DrawingBoard.jsx:52-67 | Undo then redo returns to the same history and cursor, with the surface at the snapshot under the cursor. On an in-sync board it returns the identical state. |
| EngineProperties.RedoThenUndoRestores | Client/src/components/DrawingBoard.jsx:52-67 | Redo then undo returns to the same history and cursor, with the surface at the snapshot under the cursor. On an in-sync board it returns the identical state. |
| EngineProperties.PushAfterUndoDisablesRedo | Client/src/components/DrawingBoard.jsx:39-67 | After an undo from index i, each action that pushes (a pointer-up, a text commit, a clear) leaves exactly i+1 snapshots. The first i are untouched and redo is a no-op. |
| EngineProperties.SecondMoveOverridesFirst | Client/src/components/DrawingBoard.jsx:153-205 | With the line or rectangle tool, two moves give the same state as the second move alone. |
| EngineProperties.DragLeavesNoResidue | Client/src/components/DrawingBoard.jsx:153-205 | With the line or rectangle tool, any non-empty sequence of moves gives the same state as its last move alone. |
| EngineProperties.DraggedShapeIsOneOutline | Client/src/components/DrawingBoard.jsx:181-205 | After a drag, the surface is the snapshot at the cursor (or blank) plus exactly one outline from the start point to the last position. |
| EngineProperties.ReleaseAfterDragMatchesSingleMove | Client/src/components/DrawingBoard.jsx:80-84 | Press, drag through any positions and release gives the same board as press, one move to the last position, and release. |
| EngineProperties.DragKeepsHistoryAndLog | Client/src/components/DrawingBoard.jsx:143-162 | Moves never change the history, the log, `isDrawing`, the tool, the presence of a current drawing or the compositing. |
| EngineProperties.GestureThenUndoRestores | Client/src/components/DrawingBoard.jsx:52-58 | On an idle board with a snapshot, any stroke or shape followed by one undo restores the previous surface and cursor. Earlier snapshots are untouched. |
| EngineProperties.FirstGestureCannotBeUndone | Client/src/components/DrawingBoard.jsx:14-15 | Because no initial snapshot exists, the first stroke after mount leaves one snapshot at index 0, and undo is disabled and does nothing. |
| EngineProperties.EraserCompositingEndsWithStroke | Client/src/components/DrawingBoard.jsx:175-178 | After an eraser stroke the context paints over again, and the next pen stroke paints over. |
| EngineProperties.EraserDragOnlyErases | Client/src/components/DrawingBoard.jsx:130-132 | During an eraser drag, every primitive added to the surface is an erasing stroke, and earlier content is kept as a prefix. |
| EngineProperties.TextClickPushesTwoSnapshots | Client/src/components/DrawingBoard.jsx:80-114 | A click with visible text stamps it once and logs nothing. The down and the up each push a snapshot of the stamped surface. |
| EngineProperties.BlankTextClickLogsRecord | Client/src/components/DrawingBoard.jsx:107-124 | A click in text mode with blank text logs one text-tool record, leaves the surface unchanged and pushes one snapshot of it. |
| EngineProperties.ShapeGestureAddsOneOutline | Client/src/components/DrawingBoard.jsx:80-205 | A full shape gesture on an in-sync board adds one paint-over outline with the line width and pushes it as one snapshot. When a snapshot existed before, undo brings back the earlier surface and redo brings back the shape. |
| EngineProperties.PressingWithShapeTool | Client/src/components/DrawingBoard.jsx:116-141 | Pressing with the line or rectangle tool starts a paint-over stroke with the line width, anchored at the press, and leaves history alone. |
| EngineProperties.UndoAfterPushRestores | Client/src/components/DrawingBoard.jsx:52-84 | A pointer-up over an in-sync board's history keeps the surface and pushes it right after the board's snapshot. When a snapshot existed, undo then brings the board's surface back and redo brings the pushed surface back. |
| EngineProperties.UndoAfterUpRestores | Client/src/components/DrawingBoard.jsx:52-84 | On an in-sync board with a snapshot, a pointer-up followed by one undo shows the board's surface again, with the same cursor and the earlier snapshots untouched. |
| EngineProperties.ShapeDragEndsWithOneOutline | Client/src/components/DrawingBoard.jsx:116-205 | Pressing with a shape tool on an in-sync board and dragging leaves the board's surface with one paint-over outline of the line width on top, from the press to the last position. Drawing is still in progress and the history is unchanged. |
| EngineProperties.UpAfterCommit | Client/src/components/DrawingBoard.jsx:80-114 | The pointer-up after a text commit pushes the stamped surface a second time. The log is unchanged, the text is emptied and text mode stays off. |
| EngineProperties.UpAfterStroke | Client/src/components/DrawingBoard.jsx:80-173 | A press that begins a stroke, released straight away, leaves its new record after every earlier one, which are unchanged because their ids come before the press. The unchanged surface is pushed once. |
| EngineProperties.FirstPenStroke | Client/src/components/DrawingBoard.jsx:14-15 | A pen stroke from (10,10) to (100,10) after mount leaves a history holding that stroke alone, at index 0. |
| EngineProperties.PenStrokeBoard | Client/src/components/DrawingBoard.jsx:14-15 | The board after the first pen stroke from mount is in sync with its only snapshot, which holds the pen stroke alone, and the line width is 3. |
| EngineProperties.PenThenRectangleSession | Client/src/components/DrawingBoard.jsx:39-205 | On that board, a rectangle dragged from (20,20) through (40,40) to (60,60) leaves the pen stroke plus one rectangle outline, and two snapshots. Undo shows the pen stroke alone and redo the rectangle again. |

## Left out

- `Client/src/pages/AllDrawings.jsx`: fetching, deleting, confirmation dialogs, routing and loading/error UI. This is network and UI plumbing outside the engine.
- The JSX toolbar and canvas markup (DrawingBoard.jsx:220-318). Only what the buttons do is modelled: tool selection, text arming, the text box, the eraser slider and the undo/redo enable conditions.
- Pixel rasterisation, fonts (`20px Arial`), stroke colour (`black`), line caps and the internals of `getImageData`/`putImageData`. The surface is an abstract value, so the 800x500 canvas size does not appear.
- Touch coordinate conversion through `getBoundingClientRect` (DrawingBoard.jsx:87-99). Pointer coordinates are taken as given integers, and mouse and touch handlers share one model.
- `Date.now()`, `toLocaleString` and `toISOString`. They are abstract integer clock readings passed in as `now`. Id uniqueness is proved only under a clock whose readings at pointer-down strictly increase.
- React's batched, deferred `setState` and stale closures. Each handler is an immediate sequential update.
- The `initialData` prop. On mount the component checks it (`if (initialData)`) and hands it to `loadInitialData`, whose body is empty (DrawingBoard.jsx:28-29, 33-36), so it never changes the state. The `onDrawingChange` prop is never used.
- `lineWidth` has no setter in the component and stays 3. The eraser size is limited to the slider's range 5-50 by its type.
- JsText.IsJsWhitespace lists the ECMAScript white space and line terminators by code point. Any other Unicode space separator added to category Zs after these is not included.
