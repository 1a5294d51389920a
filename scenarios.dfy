/**
 Event sequences run against a fresh sketchpad, with what the handlers'
 contracts say the user then sees. They pin down the consequences of sharing
 the current line by reference.
 */
module Scenarios {
  import opened Render
  import opened Sketch

  /** A fresh pad after a press and one move to `p`: one committed line holding `p`, still drawing. */
  method PressAndMove(p: Point) returns (pad: Sketchpad)
    ensures fresh(pad) && fresh(pad.current) && pad.Valid() && pad.drawing
    ensures pad.lines == [pad.current] && pad.redo == [] && pad.current.pts == [p]
  {
    pad := new Sketchpad();
    pad.MouseDown();
    var changed := pad.MouseMove(p.x, p.y);
  }

  /**
   Press, moves to `a` and `b`, release. The press itself records no point, so
   the stroke starts at the first move; the repaint draws it from that point.
   */
  method DragThenRelease(a: Point, b: Point) returns (shown: seq<seq<Point>>, cmds: seq<PathCommand>)
    ensures shown == [[a, b]]
    ensures cmds == [MoveTo(a), LineTo(a), LineTo(b)]
  {
    var pad := PressAndMove(a);
    var changed := pad.MouseMove(b.x, b.y);
    changed := pad.MouseUp();
    assert pad.lines == [pad.current] && pad.current.pts == [a, b];
    shown := pad.Strokes();
    cmds := pad.Repaint(true);
    PathsOfSegment(a, b);
  }

  /**
   A click without movement commits an empty line: the repaint draws nothing,
   yet the next undo spends itself on that invisible line.
   */
  method ClickThenUndo() returns (shown: seq<seq<Point>>, cmds: seq<PathCommand>, stashed: seq<seq<Point>>)
    ensures shown == [[]] && cmds == []
    ensures stashed == [[]]
  {
    var pad := new Sketchpad();
    pad.MouseDown();
    var changed := pad.MouseUp();
    shown := pad.Strokes();
    cmds := pad.Repaint(true);
    PathsOfOne([]);
    changed := pad.Undo();
    stashed := pad.Stashed();
  }

  /**
   The button is released outside the canvas, so no mouseup arrives and the
   pad is still drawing. An undo moves the line to the redo stack, and the
   next move grows the line on the redo stack, which the screen does not show.
   */
  method ReleasedOffCanvas(p: Point, q: Point) returns (shown: seq<seq<Point>>, stashed: seq<seq<Point>>)
    ensures shown == [] && stashed == [[p, q]]
  {
    var pad := PressAndMove(p);
    var changed := pad.Undo();
    assert pad.redo == [pad.current] && pad.lines == [] && pad.drawing;
    changed := pad.MouseMove(q.x, q.y);
    assert pad.redo == [pad.current] && pad.current.pts == [p, q];
    shown := pad.Strokes();
    stashed := pad.Stashed();
  }

  /**
   Clear while still drawing: the line being drawn leaves both lists, and
   further moves grow a line that neither the screen nor redo can reach.
   */
  method ClearWhileDrawing(p: Point, q: Point) returns (shown: seq<seq<Point>>, stashed: seq<seq<Point>>, orphan: seq<Point>)
    ensures shown == [] && stashed == []
    ensures orphan == [p, q]
  {
    var pad := PressAndMove(p);
    var changed := pad.Clear();
    changed := pad.MouseMove(q.x, q.y);
    changed := pad.Redo();
    shown := pad.Strokes();
    stashed := pad.Stashed();
    orphan := pad.current.pts;
  }

  /** Two finished strokes, `p` then `q`. */
  method TwoStrokes(p: Point, q: Point) returns (pad: Sketchpad)
    ensures fresh(pad) && pad.Valid() && !pad.drawing
    ensures pad.redo == [] && |pad.lines| == 2 && pad.lines[0].pts == [p] && pad.lines[1] == pad.current && pad.current.pts == [q]
  {
    pad := PressAndMove(p);
    var changed := pad.MouseUp();
    ghost var first := pad.current;
    pad.MouseDown();
    assert pad.lines == [first, pad.current] && first.pts == [p];
    changed := pad.MouseMove(q.x, q.y);
    changed := pad.MouseUp();
  }

  /** A finished stroke `x`, then a press and one move to `p`, still drawing. */
  method StrokeThenDraw(x: Point, p: Point) returns (pad: Sketchpad, first: Line)
    ensures fresh(pad) && fresh(pad.current) && pad.Valid() && pad.drawing && pad.redo == []
    ensures pad.lines == [first, pad.current] && first.pts == [x] && pad.current.pts == [p]
  {
    pad := PressAndMove(x);
    var changed := pad.MouseUp();
    first := pad.current;
    pad.MouseDown();
    changed := pad.MouseMove(p.x, p.y);
  }

  /** Two undos after `StrokeThenDraw`: the live line goes first, so it ends at the bottom of the redo stack. */
  method UndoTwice(pad: Sketchpad, first: Line)
    requires pad.Valid() && pad.drawing && pad.redo == []
    requires pad.lines == [first, pad.current]
    modifies pad`lines, pad`redo
    ensures pad.Valid() && pad.drawing && pad.current == old(pad.current)
    ensures pad.lines == [] && pad.redo == [pad.current, first] && first != pad.current
    ensures first.pts == old(first.pts) && pad.current.pts == old(pad.current.pts)
  {
    var changed := pad.Undo();
    changed := pad.Undo();
    assert pad.lines + pad.redo == [pad.current, first];
  }

  /**
   Two strokes, the second still being drawn, then two undos: the live line is
   the first one undone, so it sits at the bottom of the redo stack, and the
   next move grows that bottom entry while the screen shows nothing.
   */
  method UndoTwiceWhileDrawing(x: Point, p: Point, q: Point) returns (shown: seq<seq<Point>>, stashed: seq<seq<Point>>)
    ensures shown == [] && stashed == [[p, q], [x]]
  {
    var pad, first := StrokeThenDraw(x, p);
    UndoTwice(pad, first);
    var changed := pad.MouseMove(q.x, q.y);
    assert pad.current.pts == [p, q] && first.pts == [x];
    shown := pad.Strokes();
    stashed := pad.Stashed();
  }

  /** Clear keeps the redo stack: after two strokes, an undo and a clear, redo brings back the second stroke alone. */
  method RedoAfterClear(p: Point, q: Point) returns (shown: seq<seq<Point>>, stashed: seq<seq<Point>>)
    ensures shown == [[q]] && stashed == []
  {
    var pad := TwoStrokes(p, q);
    var changed := pad.Undo();
    assert pad.redo == [pad.current];
    changed := pad.Clear();
    changed := pad.Redo();
    assert pad.lines == [pad.current] && pad.redo == [] && pad.current.pts == [q];
    shown := pad.Strokes();
    stashed := pad.Stashed();
  }
}
