# Sketchpad stroke history, modelled in Dafny

This project models the drawing core of a small browser sketchpad (`src/main.ts`).
The page keeps four pieces of state:

- `linesList`: the committed strokes.
- `redoList`: the redo stack.
- `currentLine`: the point array being drawn into.
- `isDrawing`: whether a press is in progress.

Seven event handlers change or read that state:

- mousedown, mouseup and mousemove on the canvas;
- the Undo, Redo and Clear buttons;
- the `drawing-changed` repaint, which clears the canvas and traces every committed line.

The model has four modules:

- `Render` (render.dfy) turns the repaint into a pure list of path commands, `MoveTo(p)` and `LineTo(p)`. It also gives the inverse: `Subpaths` reads a command list back into the polylines the canvas traces.
- `UndoRedo` (undo_redo.dfy) is the two-stack history on values. It covers press, undo, redo and clear, and proves the classic laws: round trips, n undos, preserved contents, and that no entry is ever held twice.
- `Sketch` (sketchpad.dfy) is the page state as a class. A stroke is a `Line` object whose `pts` field grows in place, so the lists hold references exactly as the JavaScript arrays do. The handlers are methods whose contracts tie the new state to `UndoRedo` and to the points on screen. The repaint is a nested loop proved equal to `Render.Paths`.
- `Scenarios` (scenarios.dfy) runs event sequences on a fresh sketchpad. They show the consequences of reference sharing:
  - a move after an off-canvas release and an undo grows a line on the redo stack;
  - after two undos while still drawing, the live line sits at the bottom of the redo stack, and later moves grow it there;
  - a move after a clear grows a line that neither list holds;
  - a click without movement leaves an invisible line that the next undo spends itself on.

Two behaviours of the code shape the model:

- A press records no point; a stroke starts at the first mousemove (src/main.ts:28-33).
- Clear empties `linesList` only; the redo stack survives, so Redo after Clear brings lines back (src/main.ts:94-98).

Every handler except mousedown (and the repaint itself) returns `changed`, which says whether it dispatches `drawing-changed`:

- mouseup and clear always dispatch;
- mousemove dispatches only while drawing;
- undo and redo dispatch only when their source list was non-empty;
- mousedown never dispatches.

## Model

| member | source | states |
|---|---|---|
| `Sketch.Line.constructor` | src/main.ts:30 | a new line holds no points |
| `Sketch.Sketchpad.constructor` | src/main.ts:22-26 | initial state: both lists empty, not drawing, an empty current line, and no line held twice |
| `Sketch.Sketchpad.MouseDown` | src/main.ts:28-33 | sets drawing; the current line is a fresh empty line; the redo stack is emptied; exactly that line is appended to the committed lines (history = `Commit`); earlier lines keep their points; no line is held twice |
| `Sketch.Sketchpad.MouseUp` | src/main.ts:35-38 | clears drawing, always asks for a repaint, and changes neither list nor any line's points |
| `Sketch.Sketchpad.MouseMove` | src/main.ts:40-46 | while drawing, appends (offsetX, offsetY) to the current line object and asks for a repaint; otherwise changes nothing; every other line keeps its points; wherever the current line sits in the committed lines or on the redo stack, exactly that entry grows and every other entry keeps its points; if it is in neither list, neither list's points change |
| `Sketch.Sketchpad.Undo` | src/main.ts:71-79 | history = `UndoRedo.Undo` of the old one; on a non-empty list the last stroke moves to the top of the redo stack and a repaint is asked for; on an empty list nothing changes and no repaint is asked for |
| `Sketch.Sketchpad.Redo` | src/main.ts:84-92 | history = `UndoRedo.Redo` of the old one; on a non-empty stack its top stroke moves to the end of the committed lines and a repaint is asked for; on an empty stack nothing changes |
| `Sketch.Sketchpad.Clear` | src/main.ts:94-98 | the committed lines become empty; the redo stack, the current line and the drawing flag are kept; a repaint is always asked for |
| `Sketch.Sketchpad.Repaint` | src/main.ts:48-62 | the commands issued are exactly `Render.Paths` of the committed strokes; none without a drawing context |
| `Sketch.TraceLine` | src/main.ts:53-58 | the inner loop issues exactly one line's commands |
| `Render.LineTos` | src/main.ts:55-57 | one `lineTo` per point of the line: as many commands as points |
| `Render.StrokeCommands` | src/main.ts:53-58 | a line issues no commands iff it is empty, otherwise length + 1 commands |
| `Render.StrokeCommandsShape` | src/main.ts:53-58 | a non-empty line issues a `moveTo` to its first point, then a `lineTo` to every point in order, the first point included |
| `Render.LineTosAt` | src/main.ts:55-57 | the i-th `lineTo` goes to the i-th point |
| `Render.Paths` | src/main.ts:52-59 | the number of commands is the sum of (length + 1) over the non-empty lines |
| `Render.EmptyLineInvisible` | src/main.ts:53 | appending a line with no points leaves the repaint unchanged |
| `Render.PathsOfOne` | src/main.ts:52-59 | a single line repaints as exactly its own commands |
| `Render.PathsOfSegment` | src/main.ts:52-59 | a two-point line repaints as a `moveTo` and two `lineTo`s, the first back onto its start |
| `Render.SubpathsOfStroke` | src/main.ts:54-57 | issuing a line's commands point by point opens one subpath and grows only that subpath |
| `Render.SubpathsOfStrokeCommands` | src/main.ts:53-58 | one line's commands add exactly its polyline to what is traced; an empty line adds nothing |
| `Render.SubpathsOfPaths` | src/main.ts:52-59 | what the repaint traces is exactly one polyline per non-empty line, in drawing order; nothing is lost or reordered |
| `UndoRedo.Commit` | src/main.ts:30-32 | a press leaves the redo stack empty; the history then holds the committed lines plus the new one, and every redo entry is dropped |
| `UndoRedo.Undo` | src/main.ts:71-79 | undo changes the history iff the committed list is non-empty |
| `UndoRedo.Redo` | src/main.ts:84-92 | redo changes the history iff the redo stack is non-empty |
| `UndoRedo.Clear` | src/main.ts:96 | clear removes exactly the committed entries from the history and keeps the redo ones; afterwards there is nothing to undo |
| `UndoRedo.UndoKeepsPool` | src/main.ts:72-76 | undo preserves the multiset of all entries, committed plus redo |
| `UndoRedo.RedoKeepsPool` | src/main.ts:85-89 | redo preserves the multiset of all entries, committed plus redo |
| `UndoRedo.UndoThenRedo` | src/main.ts:71-92 | with a non-empty committed list, undo then redo restores both lists exactly |
| `UndoRedo.RedoThenUndo` | src/main.ts:71-92 | with a non-empty redo stack, redo then undo restores both lists exactly |
| `UndoRedo.ClearThenUndoRedo` | src/main.ts:94-98 | undo after clear does nothing; redo after clear brings back the top of the redo stack as the only committed line |
| `UndoRedo.UndoTimesMovesSuffix` | src/main.ts:71-79 | n undos (n at most the number of lines) remove the last n lines and push them on the redo stack in reverse order |
| `UndoRedo.UndoTimesSaturates` | src/main.ts:72 | extra undos on an empty list change nothing |
| `UndoRedo.UndoTimesThenRedoTimes` | src/main.ts:71-92 | n undos followed by n redos restore the history exactly |
| `UndoRedo.CommitAfterUndos` | src/main.ts:28-33 | a press after any number of undos keeps the remaining lines, appends the new one and empties the redo stack |
| `UndoRedo.CommitAllAppends` | src/main.ts:28-33 | a run of presses appends its lines in order and leaves the redo stack empty |
| `UndoRedo.CommitsThenUndos` | src/main.ts:28-33 | n presses then n undos restore the committed lines; the redo stack then holds exactly the n new lines in reverse order |
| `UndoRedo.CommitKeepsNoAliases` | src/main.ts:30-32 | pressing with a fresh line keeps every line held at most once across both lists |
| `UndoRedo.UndoKeepsNoAliases` | src/main.ts:72-76 | undo keeps every line held at most once across both lists |
| `UndoRedo.RedoKeepsNoAliases` | src/main.ts:85-89 | redo keeps every line held at most once across both lists |
| `UndoRedo.ClearKeepsNoAliases` | src/main.ts:96 | clear keeps every line held at most once |
| `Scenarios.DragThenRelease` | src/main.ts:28-59 | press, moves to a and b, release: one stroke [a, b], repainted as moveTo a, lineTo a, lineTo b |
| `Scenarios.ClickThenUndo` | src/main.ts:28-38 | a click without movement commits an empty stroke; the repaint issues nothing; the next undo moves that empty stroke to the redo stack |
| `Scenarios.ReleasedOffCanvas` | src/main.ts:40-46 | with no mouseup, an undo followed by a move grows the stroke on the redo stack: nothing on screen, [[p, q]] on the stack |
| `Scenarios.ClearWhileDrawing` | src/main.ts:94-98 | a move after clear grows a line held by neither list; redo has nothing to bring back |
| `Scenarios.UndoTwiceWhileDrawing` | src/main.ts:40-46 | while a second stroke is still drawn, two undos put the live line at the bottom of the redo stack, and the next move grows that bottom entry: nothing on screen, [[p, q], [x]] on the stack |
| `Scenarios.RedoAfterClear` | src/main.ts:84-98 | after two strokes, an undo and a clear, redo shows the second stroke alone |

## Left out

- Page construction is not modelled: the title, the canvas element, the buttons, `innerHTML` and the stylesheet import (src/main.ts:1-16, 64-70, 81-83). It is user-interface setup.
- The canvas calls `getContext`, `clearRect`, `beginPath` and `stroke` are not modelled (src/main.ts:19, 50-51, 60, 95). The repaint is modelled as the list of `moveTo`/`lineTo` commands between `beginPath` and `stroke`. A missing context is the `hasContext` parameter, and then no commands are issued. Clear's own `clearRect` is left out; what is on screen after it is the repaint it triggers.
- Event dispatch is reduced to the `changed` result of each handler. The model keeps whether `drawing-changed` is raised, not the event machinery (src/main.ts:37, 44, 77, 90, 97). Which events arrive is up to the browser. A release outside the canvas is modelled by not calling `MouseUp`.
- Coordinates are integers. The browser's `offsetX`/`offsetY` are JavaScript numbers and may be fractional; the model does not capture fractional pixel positions.
- The repaint's inner loop over one line's points is written as its own method, `Sketch.TraceLine`. The iteration order and the commands are the same.
- The `if (line)` checks after `pop()` (src/main.ts:74, 87) are always true, because the list was just found non-empty and holds arrays. The model has no branch for them.
