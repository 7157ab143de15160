/** Properties of whole pointer gestures and of callback sequences on the screen
    model. A gesture is: a drag start, any number of drag samples, a drag end,
    each callback followed by one canvas frame. */
module Gestures {
  import opened Geometry
  import opened Paths
  import opened Properties
  import opened StrokeHistory
  import opened Rendering
  import opened ScreenModel

  /** One `onDrag` call: where the pointer is and how far it moved since its
      previous sample. */
  datatype DragSample = DragSample(position: Offset, change: Delta)

  function Positions(samples: seq<DragSample>): (r: seq<Offset>)
    ensures |r| == |samples| && forall i :: 0 <= i < |samples| ==> r[i] == samples[i].position
  {
    seq(|samples|, i requires 0 <= i < |samples| => samples[i].position)
  }

  /** The summed displacement of the samples. */
  function TotalChange(samples: seq<DragSample>): Delta
  {
    if samples == [] then Zero else samples[0].change.Plus(TotalChange(samples[1..]))
  }

  /** Each sample delivered to `onDrag` and followed by a frame. */
  function Drags(s: State, samples: seq<DragSample>): State
    decreases |samples|
  {
    if samples == [] then s
    else Drags(Frame(OnDrag(s, samples[0].position, samples[0].change)), samples[1..])
  }

  /** Delivering one more sample after a run of drags continues that run. */
  lemma {:induction false} DragsAppend(s: State, samples: seq<DragSample>, x: DragSample)
    ensures Drags(s, samples + [x]) == Frame(OnDrag(Drags(s, samples), x.position, x.change))
    decreases |samples|
  {
    if samples == [] {
      assert [x][1..] == [];
    } else {
      var y := samples[0];
      assert (samples + [x])[0] == y && (samples + [x])[1..] == samples[1..] + [x];
      DragsAppend(Frame(OnDrag(s, y.position, y.change)), samples[1..], x);
    }
  }

  /** The run of drags over the first `i + 1` samples is the run over the first `i`
      followed by sample `i`. */
  lemma DragsPrefix(s: State, samples: seq<DragSample>, i: nat)
    requires i < |samples|
    ensures Drags(s, samples[..i + 1]) == Frame(OnDrag(Drags(s, samples[..i]), samples[i].position, samples[i].change))
  {
    assert samples[..i + 1] == samples[..i] + [samples[i]];
    DragsAppend(s, samples[..i], samples[i]);
  }

  lemma {:induction false} DragsPreserveValid(s: State, samples: seq<DragSample>)
    requires Valid(s)
    ensures Valid(Drags(s, samples))
    decreases |samples|
  {
    if samples != [] {
      DragsPreserveValid(Frame(OnDrag(s, samples[0].position, samples[0].change)), samples[1..]);
    }
  }

  /** A whole gesture from drag start to drag end, one frame after each callback. */
  function Gesture(s: State, start: Offset, samples: seq<DragSample>): State
  {
    Frame(OnDragEnd(Drags(Frame(OnDragStart(s, start)), samples)))
  }

  /** The quadratic segments of a smoothed polyline: each point but the last is
      the control point of a segment that ends halfway to the next point. */
  function Segments(points: seq<Offset>): (r: Path)
    ensures |points| > 0 ==> |r| == |points| - 1
  {
    if |points| < 2 then []
    else [QuadraticBezierTo(points[0], Midpoint(points[0], points[1]))] + Segments(points[1..])
  }

  /** Segment `i` has control point `points[i]` and ends halfway between `points[i]`
      and `points[i + 1]`. */
  lemma {:induction false} SegmentsAt(points: seq<Offset>, i: nat)
    requires i + 1 < |points|
    ensures Segments(points)[i] == QuadraticBezierTo(points[i], Midpoint(points[i], points[i + 1]))
  {
    if i > 0 {
      SegmentsAt(points[1..], i - 1);
    }
  }

  /** The path a stroke through `points` should have: start at the first point,
      the smoothed segments, and a line to the last point. */
  function SmoothedPath(points: seq<Offset>): Path
    requires |points| > 0
  {
    [MoveTo(points[0])] + Segments(points) + [LineTo(points[|points| - 1])]
  }

  lemma SegmentsCons(a: Offset, b: Offset, rest: seq<Offset>)
    ensures Segments([a] + ([b] + rest)) == [QuadraticBezierTo(a, Midpoint(a, b))] + Segments([b] + rest)
  {
    assert ([a] + ([b] + rest))[1..] == [b] + rest;
  }

  /** Outside touch mode, each drag sample adds one smoothed segment from the
      previous position to the path being drawn. */
  lemma {:induction false} DragsBuildSegments(s: State, samples: seq<DragSample>)
    requires s.drawMode != Touch
    decreases |samples|
    ensures Drags(s, samples).currentPath == s.currentPath + Segments([s.previousPosition] + Positions(samples))
  {
    if samples == [] {
      assert Segments([s.previousPosition]) == [];
    } else {
      var x := samples[0];
      var s1 := Frame(OnDrag(s, x.position, x.change));
      DragStep(s, x);
      DragsBuildSegments(s1, samples[1..]);
      var rest := Positions(samples[1..]);
      assert Positions(samples) == [x.position] + rest;
      SegmentsCons(s.previousPosition, x.position, rest);
      assert s1.currentPath + Segments([x.position] + rest)
          == s.currentPath + ([QuadraticBezierTo(s.previousPosition, Midpoint(s.previousPosition, x.position))]
                              + Segments([x.position] + rest));
    }
  }

  /** Outside touch mode, drags change nothing but the path, the phase and the
      positions: after at least one, the phase is Move and both positions are the
      last sample's. */
  lemma {:induction false} DragsKeepStroke(s: State, samples: seq<DragSample>)
    requires s.drawMode != Touch
    decreases |samples|
    ensures var r := Drags(s, samples);
      && r.history == s.history && r.drawMode == s.drawMode
      && r.currentPathProperty == s.currentPathProperty && r.currentPathId == s.currentPathId
      && (samples == [] ==> r == s)
      && (samples != [] ==>
            && r.motionEvent == Move
            && r.currentPosition == samples[|samples| - 1].position
            && r.previousPosition == r.currentPosition)
  {
    if samples != [] {
      var x := samples[0];
      DragStep(s, x);
      DragsKeepStroke(Frame(OnDrag(s, x.position, x.change)), samples[1..]);
      if |samples| > 1 {
        assert samples[1..][|samples| - 2] == samples[|samples| - 1];
      }
    }
  }

  /** One drag and its frame outside touch mode. */
  lemma DragStep(s: State, x: DragSample)
    requires s.drawMode != Touch
    ensures var r := Frame(OnDrag(s, x.position, x.change));
      && r.currentPath == s.currentPath + [QuadraticBezierTo(s.previousPosition, Midpoint(s.previousPosition, x.position))]
      && r.history == s.history && r.drawMode == s.drawMode
      && r.currentPathProperty == s.currentPathProperty && r.currentPathId == s.currentPathId
      && r.motionEvent == Move && r.currentPosition == x.position && r.previousPosition == x.position
  {
  }

  /** A gesture outside touch mode commits exactly one stroke: the path being drawn,
      extended by the smoothed path through the start and every sample, paired with
      the current properties. The redo stack is emptied, a new empty path with new
      properties of the same style is started, and the screen is idle again. */
  lemma DrawGestureCommitsSmoothedStroke(s: State, start: Offset, samples: seq<DragSample>)
    requires Valid(s) && s.drawMode != Touch
    ensures var r := Gesture(s, start, samples);
      && r.history == Commit(s.history, Stroke(s.currentPathId,
           s.currentPath + SmoothedPath([start] + Positions(samples)), s.currentPathProperty))
      && r.currentPath == [] && r.currentPathId == s.currentPathId + 1
      && r.currentPathProperty == NextStrokeProperties(s.currentPathProperty)
      && r.motionEvent == Idle && r.currentPosition == Unspecified && r.previousPosition == Unspecified
      && r.drawMode == s.drawMode && Valid(r)
  {
    var s1 := Frame(OnDragStart(s, start));
    DragsBuildSegments(s1, samples);
    DragsKeepStroke(s1, samples);
    var s2 := Drags(s1, samples);
    var pts := [start] + Positions(samples);
    assert s2.currentPosition == pts[|pts| - 1];
    assert s2.currentPath + [LineTo(s2.currentPosition)] == s.currentPath + SmoothedPath(pts);
  }

  /** In touch mode, each drag sample pans every committed path and the path being
      drawn, and leaves the redo stack alone. */
  lemma {:induction false} TouchDragsPan(s: State, samples: seq<DragSample>)
    requires s.drawMode == Touch
    decreases |samples|
    ensures var r := Drags(s, samples);
      && r.history == History(TranslateStrokes(s.history.paths, TotalChange(samples)), s.history.pathsUndone)
      && r.currentPath == TranslatePath(s.currentPath, TotalChange(samples))
      && r.drawMode == s.drawMode
      && r.currentPathProperty == s.currentPathProperty && r.currentPathId == s.currentPathId
  {
    if samples == [] {
      TranslateStrokesZero(s.history.paths);
      TranslatePathZero(s.currentPath);
    } else {
      var x := samples[0];
      var s1 := Frame(OnDrag(s, x.position, x.change));
      TouchDragsPan(s1, samples[1..]);
      TranslateStrokesCompose(s.history.paths, x.change, TotalChange(samples[1..]));
      TranslatePathCompose(s.currentPath, x.change, TotalChange(samples[1..]));
    }
  }

  /** A touch-mode gesture commits nothing: it pans every committed path and the path
      being drawn by the gesture's total displacement. Its end still empties the
      redo stack and makes the screen idle. */
  lemma TouchGesturePans(s: State, start: Offset, samples: seq<DragSample>)
    requires Valid(s) && s.drawMode == Touch
    ensures var r := Gesture(s, start, samples);
      && r.history == History(TranslateStrokes(s.history.paths, TotalChange(samples)), [])
      && r.currentPath == TranslatePath(s.currentPath, TotalChange(samples))
      && r.currentPathProperty == s.currentPathProperty && r.currentPathId == s.currentPathId
      && r.motionEvent == Idle && r.drawMode == Touch && Valid(r)
  {
    var s1 := Frame(OnDragStart(s, start));
    assert s1.history == s.history && s1.currentPath == s.currentPath && Valid(s1);
    TouchDragsPan(s1, samples);
    DragsPreserveValid(s1, samples);
    var s2 := Drags(s1, samples);
    var r := Frame(OnDragEnd(s2));
    assert r.history == ClearRedo(s2.history);
  }

  /** Two touch-mode drags by opposite displacements, each followed by a frame, put
      every committed path and the path being drawn back where they were. */
  lemma PanBackRestores(s: State, p: Offset, q: Offset, d: Delta)
    requires s.drawMode == Touch
    ensures var r := Frame(OnDrag(Frame(OnDrag(s, p, d)), q, d.Negated()));
      r.history == s.history && r.currentPath == s.currentPath
  {
    TranslateStrokesInverse(s.history.paths, d);
    TranslatePathInverse(s.currentPath, d);
  }

  /** A drag start followed by a drag before any frame, in any mode, behaves as the
      drag alone: the Down phase, and so its `moveTo`, is lost. */
  lemma DragStartOverwritten(s: State, p: Offset, q: Offset, e: Delta)
    ensures OnDrag(OnDragStart(s, p), q, e) == OnDrag(s, q, e)
  {
  }

  /** Outside touch mode, drags in a row before a frame leave only the last phase
      and position. */
  lemma LastHandlerWins(s: State, p: Offset, q: Offset, c: Delta, e: Delta)
    requires s.drawMode != Touch
    ensures OnDrag(OnDrag(s, p, c), q, e) == OnDrag(s, q, e)
  {
  }

  /** A frame with no handler call before it repeats the Move branch: outside touch
      mode it adds a segment controlled by the current position and ending halfway
      between that position and itself. */
  lemma RepeatedMoveFrame(s: State)
    requires s.motionEvent == Move && s.drawMode != Touch
    ensures var once := Frame(s);
      Frame(once).currentPath
        == once.currentPath + [QuadraticBezierTo(s.currentPosition, Midpoint(s.currentPosition, s.currentPosition))]
  {
  }

  /** After a frame that ends a stroke, in any mode, there is nothing to redo. */
  lemma RedoAfterStrokeEndIsNoOp(s: State)
    requires s.motionEvent == Up
    ensures OnRedo(Frame(s)) == Frame(s)
  {
  }

  /** Undo followed by redo restores the whole screen state. */
  lemma UndoThenRedoRestores(s: State)
    requires s.history.paths != []
    ensures OnRedo(OnUndo(s)) == s
  {
    RedoUndo(s.history);
  }

  /** Undo hides exactly the last committed stroke: the frame's calls lose the
      last stroke's call and are otherwise the same, in the same order. */
  lemma UndoHidesLastStroke(s: State)
    requires s.history.paths != []
    ensures var n := |s.history.paths|;
      var before, after := Render(s), Render(OnUndo(s));
      var last := s.history.paths[n - 1];
      before == after[..n] + [PathOp(last.path, last.properties)] + after[n..]
  {
    var n := |s.history.paths|;
    var p := s.history.paths[..n - 1];
    var last := s.history.paths[n - 1];
    assert s.history.paths == p + [last];
    assert OnUndo(s).history.paths == p;
    FrameOpsAppend(p, last, s.motionEvent != Idle, s.currentPath, s.currentPathProperty);
  }

  /** In the frame after a mode change the path being drawn is not shown, but the
      change does not discard it: the next stroke drawn outside touch mode commits
      it in front of its own commands. */
  lemma ModeChangeKeepsPartialPath(s: State, mode: DrawMode, start: Offset, samples: seq<DragSample>)
    requires Valid(s) && mode != Touch
    ensures |Render(Frame(OnDrawModeChanged(s, mode)))| == |s.history.paths| + 2
    ensures var r := Gesture(OnDrawModeChanged(s, mode), start, samples);
      && |r.history.paths| == |s.history.paths| + 1
      && s.currentPath <= r.history.paths[|s.history.paths|].path
  {
    var m := OnDrawModeChanged(s, mode);
    DrawGestureCommitsSmoothedStroke(m, start, samples);
    var r := Gesture(m, start, samples);
    var committed := Stroke(m.currentPathId, m.currentPath + SmoothedPath([start] + Positions(samples)),
                            m.currentPathProperty);
    assert r.history.paths == s.history.paths + [committed];
    assert r.history.paths[|s.history.paths|] == committed;
  }

  /** After a switch into touch mode the kept partial path takes part in the next
      gesture as the path being drawn: its Down frame draws it, the drags pan it by
      the total change, and nothing is committed. */
  lemma ModeChangeToTouchPansPartialPath(s: State, start: Offset, samples: seq<DragSample>)
    requires Valid(s)
    ensures var m := OnDrawModeChanged(s, Touch);
      && |Render(Frame(OnDragStart(m, start)))| == |s.history.paths| + 3
      && Render(Frame(OnDragStart(m, start)))[|s.history.paths| + 1] == PathOp(s.currentPath, m.currentPathProperty)
      && var r := Gesture(m, start, samples);
      && r.history.paths == TranslateStrokes(s.history.paths, TotalChange(samples))
      && r.currentPath == TranslatePath(s.currentPath, TotalChange(samples))
  {
    TouchGesturePans(OnDrawModeChanged(s, Touch), start, samples);
  }

  /** A gesture with two drags outside touch mode, started with no path being drawn,
      commits the stroke that moves to the start, has a segment controlled by the
      start ending halfway to the first drag, a segment controlled by the first drag
      ending halfway to the second, and a line to the second. */
  lemma TwoDragStroke(s: State, start: Offset, x: DragSample, y: DragSample)
    requires Valid(s) && s.drawMode != Touch && s.currentPath == []
    ensures var r := Gesture(s, start, [x, y]);
      && r.history.paths == s.history.paths
           + [Stroke(s.currentPathId,
                     [MoveTo(start),
                      QuadraticBezierTo(start, Midpoint(start, x.position)),
                      QuadraticBezierTo(x.position, Midpoint(x.position, y.position)),
                      LineTo(y.position)],
                     s.currentPathProperty)]
      && r.history.pathsUndone == [] && r.currentPath == [] && r.motionEvent == Idle
  {
    DrawGestureCommitsSmoothedStroke(s, start, [x, y]);
    var a, b, c := start, x.position, y.position;
    var pts := [a] + Positions([x, y]);
    assert pts == [a, b, c];
    assert pts[1..] == [b, c] && [b, c][1..] == [c];
    assert Segments([c]) == [];
    assert Segments(pts) == [QuadraticBezierTo(a, Midpoint(a, b)), QuadraticBezierTo(b, Midpoint(b, c))];
    var path := [MoveTo(a), QuadraticBezierTo(a, Midpoint(a, b)), QuadraticBezierTo(b, Midpoint(b, c)), LineTo(c)];
    assert SmoothedPath(pts) == path;
    assert s.currentPath + SmoothedPath(pts) == path;
    assert Gesture(s, start, [x, y]).history == Commit(s.history, Stroke(s.currentPathId, path, s.currentPathProperty));
  }
}
