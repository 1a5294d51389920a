/**
 The repaint of the sketchpad, without pixels: the committed lines become the
 list of canvas path commands the repaint issues between `beginPath` and
 `stroke`. A line with no points issues nothing; any other line issues a
 `moveTo` to its first point and then a `lineTo` to every point, the first one
 included.
 */
module Render {

  /** A pointer position in canvas coordinates (`offsetX`, `offsetY`). */
  datatype Point = Point(x: int, y: int)

  /** The two path-building calls the repaint makes on the canvas. */
  datatype PathCommand = MoveTo(p: Point) | LineTo(p: Point)

  /** One `lineTo` per point, in the order of the points. */
  function LineTos(pts: seq<Point>): (r: seq<PathCommand>)
    ensures |r| == |pts|
  {
    if pts == [] then [] else LineTos(pts[..|pts| - 1]) + [LineTo(pts[|pts| - 1])]
  }

  /** The `i`-th `lineTo` goes to the `i`-th point. */
  lemma {:induction false} LineTosAt(pts: seq<Point>, i: nat)
    requires i < |pts|
    ensures LineTos(pts)[i] == LineTo(pts[i])
  {
    if i < |pts| - 1 {
      LineTosAt(pts[..|pts| - 1], i);
    }
  }

  /** The commands issued for one line. */
  function StrokeCommands(pts: seq<Point>): (r: seq<PathCommand>)
    ensures pts == [] <==> r == []
    ensures pts != [] ==> |r| == |pts| + 1
  {
    if pts == [] then [] else [MoveTo(pts[0])] + LineTos(pts)
  }

  /**
   A non-empty line issues a `moveTo` to its first point, then a `lineTo` to
   each of its points in order, the first one included.
   */
  lemma StrokeCommandsShape(pts: seq<Point>)
    requires pts != []
    ensures var r := StrokeCommands(pts);
      r[0] == MoveTo(pts[0]) && r[1] == LineTo(pts[0]) &&
      forall i :: 0 <= i < |pts| ==> r[i + 1] == LineTo(pts[i])
  {
    forall i | 0 <= i < |pts| ensures StrokeCommands(pts)[i + 1] == LineTo(pts[i]) {
      LineTosAt(pts, i);
    }
  }

  /** The number of commands the repaint should issue: length + 1 per non-empty line. */
  function CommandCount(lines: seq<seq<Point>>): nat
  {
    if lines == [] then 0
    else
      var last := lines[|lines| - 1];
      CommandCount(lines[..|lines| - 1]) + (if last == [] then 0 else |last| + 1)
  }

  /** The commands of a whole repaint: every line's commands, in drawing order. */
  function Paths(lines: seq<seq<Point>>): (r: seq<PathCommand>)
    ensures |r| == CommandCount(lines)
  {
    if lines == [] then [] else Paths(lines[..|lines| - 1]) + StrokeCommands(lines[|lines| - 1])
  }

  /** The repaint of the first `i + 1` lines extends that of the first `i` by line `i`'s commands. */
  lemma PathsStep(lines: seq<seq<Point>>, i: nat)
    requires i < |lines|
    ensures Paths(lines[..i + 1]) == Paths(lines[..i]) + StrokeCommands(lines[i])
  {
    assert lines[..i + 1][..i] == lines[..i];
  }

  /** The `lineTo`s of the first `j + 1` points extend those of the first `j` by one. */
  lemma LineTosStep(pts: seq<Point>, j: nat)
    requires j < |pts|
    ensures LineTos(pts[..j + 1]) == LineTos(pts[..j]) + [LineTo(pts[j])]
  {
    assert pts[..j + 1][..j] == pts[..j];
  }

  /** A line without points (a press with no movement) changes nothing in the repaint. */
  lemma EmptyLineInvisible(lines: seq<seq<Point>>)
    ensures Paths(lines + [[]]) == Paths(lines)
  {
  }

  /**
   What the path traces on the canvas: a `moveTo` opens a new subpath at its
   point, a `lineTo` extends the open subpath (and opens one when there is none).
   */
  function Subpaths(cmds: seq<PathCommand>): seq<seq<Point>>
  {
    if cmds == [] then []
    else
      var prev := Subpaths(cmds[..|cmds| - 1]);
      match cmds[|cmds| - 1]
      case MoveTo(p) => prev + [[p]]
      case LineTo(p) =>
        if prev == [] then [[p]] else prev[..|prev| - 1] + [prev[|prev| - 1] + [p]]
  }

  /**
   The polylines one expects to see: one per non-empty line, starting at its
   first point (the `moveTo`) and then visiting every point.
   */
  function Polylines(lines: seq<seq<Point>>): seq<seq<Point>>
  {
    if lines == [] then []
    else
      var last := lines[|lines| - 1];
      Polylines(lines[..|lines| - 1]) + (if last == [] then [] else [[last[0]] + last])
  }

  /** Appending the commands of a non-empty line, point by point, opens and grows exactly one subpath. */
  lemma {:induction false} SubpathsOfStroke(cmds: seq<PathCommand>, pts: seq<Point>, k: nat)
    requires pts != [] && k <= |pts|
    ensures Subpaths(cmds + [MoveTo(pts[0])] + LineTos(pts[..k])) == Subpaths(cmds) + [[pts[0]] + pts[..k]]
  {
    var started := cmds + [MoveTo(pts[0])];
    if k == 0 {
      assert pts[..0] == [];
      assert started + LineTos([]) == started;
      assert started[..|started| - 1] == cmds;
      assert [pts[0]] + pts[..0] == [pts[0]];
    } else {
      SubpathsOfStroke(cmds, pts, k - 1);
      var pre := started + LineTos(pts[..k - 1]);
      assert pts[..k][..k - 1] == pts[..k - 1];
      assert started + LineTos(pts[..k]) == pre + [LineTo(pts[k - 1])];
      assert (pre + [LineTo(pts[k - 1])])[..|pre|] == pre;
      assert [pts[0]] + pts[..k - 1] + [pts[k - 1]] == [pts[0]] + pts[..k];
    }
  }

  /** The commands of one line add exactly its polyline to what is traced, and nothing for an empty line. */
  lemma SubpathsOfStrokeCommands(cmds: seq<PathCommand>, pts: seq<Point>)
    ensures Subpaths(cmds + StrokeCommands(pts)) == Subpaths(cmds) + (if pts == [] then [] else [[pts[0]] + pts])
  {
    if pts == [] {
      assert cmds + StrokeCommands(pts) == cmds;
    } else {
      var whole := pts[..|pts|];
      assert whole == pts;
      SubpathsOfStroke(cmds, pts, |pts|);
      assert cmds + StrokeCommands(pts) == cmds + [MoveTo(pts[0])] + LineTos(whole);
    }
  }

  /** The repaint loses nothing: the traced subpaths are exactly the non-empty lines, in order. */
  lemma {:induction false} SubpathsOfPaths(lines: seq<seq<Point>>)
    ensures Subpaths(Paths(lines)) == Polylines(lines)
  {
    if lines != [] {
      var init, last := lines[..|lines| - 1], lines[|lines| - 1];
      SubpathsOfPaths(init);
      SubpathsOfStrokeCommands(Paths(init), last);
    }
  }

  /** The repaint of a single line is that line's commands. */
  lemma PathsOfOne(pts: seq<Point>)
    ensures Paths([pts]) == StrokeCommands(pts)
  {
  }

  /** A two-point line is drawn as a `moveTo` and two `lineTo`s, the first back onto its start. */
  lemma PathsOfSegment(a: Point, b: Point)
    ensures Paths([[a, b]]) == [MoveTo(a), LineTo(a), LineTo(b)]
  {
    PathsOfOne([a, b]);
    StrokeCommandsShape([a, b]);
  }
}
