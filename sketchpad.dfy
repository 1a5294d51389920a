/**
 The sketchpad's state and its event handlers. A line is a mutable array of
 points shared by reference: a press puts the line being drawn into the list of
 committed lines, and every later move appends to that same object, wherever
 undo, redo or clear have since put it (or not put it).
 */
module Sketch {
  import opened Render
  import H = UndoRedo

  /** One stroke's points; the handlers share it by reference. */
  class Line {
    var pts: seq<Point>

    constructor ()
      ensures pts == []
    {
      pts := [];
    }
  }

  /** The points of each line, in the order of the lines. */
  function PointsOf(ls: seq<Line>): (r: seq<seq<Point>>)
    reads ls
    ensures |r| == |ls|
    ensures forall i :: 0 <= i < |ls| ==> r[i] == ls[i].pts
  {
    if ls == [] then [] else PointsOf(ls[..|ls| - 1]) + [ls[|ls| - 1].pts]
  }

  /** The repaint's inner loop over one line: nothing when it is empty, else a `moveTo` and a `lineTo` per point. */
  method TraceLine(line: seq<Point>) returns (cmds: seq<PathCommand>)
    ensures cmds == StrokeCommands(line)
  {
    cmds := [];
    if |line| > 0 {
      cmds := [MoveTo(line[0])];
      for j := 0 to |line|
        invariant cmds == [MoveTo(line[0])] + LineTos(line[..j])
      {
        LineTosStep(line, j);
        cmds := cmds + [LineTo(line[j])];
      }
      assert line[..|line|] == line;
    }
  }

  class Sketchpad {
    /** The committed lines, in drawing order. */
    var lines: seq<Line>
    /** The redo stack; its top is the last element. */
    var redo: seq<Line>
    /** The line the pointer draws into. */
    var current: Line
    /** Set by a press, reset by a release. */
    var drawing: bool

    /** No line object appears twice across the two lists. */
    ghost predicate Valid()
      reads this
    {
      H.NoAliases(Lists())
    }

    function Lists(): H.History<Line>
      reads this
    {
      H.History(lines, redo)
    }

    /** The points of the committed lines: what a repaint draws. */
    function Strokes(): seq<seq<Point>>
      reads this, lines
    {
      PointsOf(lines)
    }

    /** The points of the lines on the redo stack. */
    function Stashed(): seq<seq<Point>>
      reads this, redo
    {
      PointsOf(redo)
    }

    /** The page's initial state: both lists empty, not drawing, an empty current line. */
    constructor ()
      ensures Valid()
      ensures lines == [] && redo == [] && !drawing
      ensures fresh(current) && current.pts == []
    {
      lines := [];
      redo := [];
      current := new Line();
      drawing := false;
    }

    /** Mouse down: start a new, empty line, commit it at once and drop the redo stack. */
    method MouseDown()
      requires Valid()
      modifies this
      ensures Valid()
      ensures drawing && fresh(current) && current.pts == []
      ensures Lists() == H.Commit(old(Lists()), current)
      ensures Strokes() == old(Strokes()) + [[]] && Stashed() == []
    {
      drawing := true;
      current := new Line();
      redo := [];
      lines := lines + [current];
      H.CommitKeepsNoAliases(old(Lists()), current);
      assert lines[..|lines| - 1] == old(lines);
    }

    /** Mouse up: stop drawing; both lists and every line stay as they are. Always asks for a repaint. */
    method MouseUp() returns (changed: bool)
      requires Valid()
      modifies this`drawing
      ensures Valid()
      ensures !drawing && changed
      ensures lines == old(lines) && redo == old(redo) && current == old(current)
      ensures Strokes() == old(Strokes()) && Stashed() == old(Stashed())
    {
      drawing := false;
      changed := true;
    }

    /**
     Mouse move: while drawing, append the pointer position to the current line
     and ask for a repaint; otherwise do nothing. The grown line is whichever
     entry of the two lists is the current line object, if any.
     */
    method MouseMove(offsetX: int, offsetY: int) returns (changed: bool)
      requires Valid()
      modifies current
      ensures Valid()
      ensures changed == drawing
      ensures current.pts == if drawing then old(current.pts) + [Point(offsetX, offsetY)] else old(current.pts)
      ensures forall l :: l in lines + redo && l != current ==> l.pts == old(l.pts)
      ensures current !in lines ==> Strokes() == old(Strokes())
      ensures current !in redo ==> Stashed() == old(Stashed())
      ensures drawing ==> forall i :: 0 <= i < |lines| && lines[i] == current ==>
        Strokes() == old(Strokes())[i := old(Strokes())[i] + [Point(offsetX, offsetY)]]
      ensures drawing ==> forall i :: 0 <= i < |redo| && redo[i] == current ==>
        Stashed() == old(Stashed())[i := old(Stashed())[i] + [Point(offsetX, offsetY)]]
    {
      changed := false;
      if drawing {
        current.pts := current.pts + [Point(offsetX, offsetY)];
        changed := true;
        var m, n := |lines|, |redo|;
        forall i | 0 <= i < m && lines[i] == current
          ensures Strokes() == old(Strokes())[i := old(Strokes())[i] + [Point(offsetX, offsetY)]]
        {
          forall j | 0 <= j < m && j != i ensures lines[j] != current {
            assert (lines + redo)[j] == lines[j] && (lines + redo)[i] == current;
          }
        }
        forall i | 0 <= i < n && redo[i] == current
          ensures Stashed() == old(Stashed())[i := old(Stashed())[i] + [Point(offsetX, offsetY)]]
        {
          forall j | 0 <= j < n && j != i ensures redo[j] != current {
            assert (lines + redo)[m + j] == redo[j] && (lines + redo)[m + i] == current;
          }
        }
      }
    }

    /** Undo: move the last committed line to the top of the redo stack; a repaint only if there was one. */
    method Undo() returns (changed: bool)
      requires Valid()
      modifies this`lines, this`redo
      ensures Valid()
      ensures changed == (old(lines) != [])
      ensures Lists() == H.Undo(old(Lists()))
      ensures changed ==> Strokes() == old(Strokes())[..|old(lines)| - 1] && Stashed() == old(Stashed()) + [old(Strokes())[|old(lines)| - 1]]
      ensures !changed ==> Strokes() == old(Strokes()) && Stashed() == old(Stashed())
    {
      H.UndoKeepsNoAliases(Lists());
      changed := false;
      if |lines| > 0 {
        var line := lines[|lines| - 1];
        lines := lines[..|lines| - 1];
        redo := redo + [line];
        changed := true;
        assert redo[..|redo| - 1] == old(redo);
      }
    }

    /** Redo: move the top of the redo stack to the end of the committed lines; a repaint only if there was one. */
    method Redo() returns (changed: bool)
      requires Valid()
      modifies this`lines, this`redo
      ensures Valid()
      ensures changed == (old(redo) != [])
      ensures Lists() == H.Redo(old(Lists()))
      ensures changed ==> Strokes() == old(Strokes()) + [old(Stashed())[|old(redo)| - 1]] && Stashed() == old(Stashed())[..|old(redo)| - 1]
      ensures !changed ==> Strokes() == old(Strokes()) && Stashed() == old(Stashed())
    {
      H.RedoKeepsNoAliases(Lists());
      changed := false;
      if |redo| > 0 {
        var line := redo[|redo| - 1];
        redo := redo[..|redo| - 1];
        lines := lines + [line];
        changed := true;
        assert lines[..|lines| - 1] == old(lines);
      }
    }

    /** Clear: drop every committed line; the redo stack, the current line and the drawing flag are kept. */
    method Clear() returns (changed: bool)
      requires Valid()
      modifies this`lines
      ensures Valid()
      ensures changed
      ensures Lists() == H.Clear(old(Lists()))
      ensures Strokes() == [] && Stashed() == old(Stashed())
    {
      H.ClearKeepsNoAliases(Lists());
      lines := [];
      changed := true;
    }

    /**
     The repaint: for every committed line with at least one point, a `moveTo`
     to its first point and a `lineTo` to each of its points. Without a
     drawing context nothing is issued.
     */
    method Repaint(hasContext: bool) returns (cmds: seq<PathCommand>)
      ensures cmds == if hasContext then Paths(Strokes()) else []
    {
      cmds := [];
      if !hasContext {
        return;
      }
      ghost var all := Strokes();
      for i := 0 to |lines|
        invariant cmds == Paths(all[..i])
      {
        var line := lines[i].pts;
        PathsStep(all, i);
        var lineCmds := TraceLine(line);
        cmds := cmds + lineCmds;
      }
      assert all[..|lines|] == all;
    }
  }
}
