/** The drawing screen's remembered state as the object its callbacks update in
    place. Every callback method is proved to make exactly the transition
    `ScreenModel` defines for it, and to keep `Valid()`; the helpers it calls are
    proved against the part of that transition they perform. */
module Screen {
  import opened Geometry
  import opened Paths
  import opened Properties
  import opened StrokeHistory
  import opened Rendering
  import ScreenModel
  import Gestures

  class DrawingScreen {
    var paths: seq<Stroke>
    var pathsUndone: seq<Stroke>
    var motionEvent: ScreenModel.MotionEvent
    var currentPosition: Offset
    var previousPosition: Offset
    var drawMode: ScreenModel.DrawMode
    var currentPath: Path
    /** The object the current properties live in; committed strokes keep a
        snapshot of it, since it is replaced right after each commit. */
    var currentPathProperty: PathPropertiesObject
    /** Identity of the path object `currentPath` is built in. */
    var currentPathId: nat

    function Model(): ScreenModel.State
      reads this, currentPathProperty
    {
      ScreenModel.State(History(paths, pathsUndone), motionEvent, currentPosition, previousPosition,
                        drawMode, currentPath, currentPathProperty.Value(), currentPathId)
    }

    predicate Valid()
      reads this, currentPathProperty
    {
      ScreenModel.Valid(Model())
    }

    /** The state `remember` starts with. */
    constructor ()
      ensures Model() == ScreenModel.Initial() && Valid()
    {
      paths := [];
      pathsUndone := [];
      motionEvent := ScreenModel.Idle;
      currentPosition := Unspecified;
      previousPosition := Unspecified;
      drawMode := ScreenModel.Draw;
      currentPath := [];
      currentPathProperty := new PathPropertiesObject();
      currentPathId := 0;
    }

    method OnDragStart(position: Offset)
      requires Valid()
      modifies this
      ensures Model() == ScreenModel.OnDragStart(old(Model()), position) && Valid()
    {
      motionEvent := ScreenModel.Down;
      currentPosition := position;
    }

    /** In touch mode every committed path is translated, and then the path being
        drawn. */
    method OnDrag(position: Offset, change: Delta)
      requires Valid()
      modifies this
      ensures Model() == ScreenModel.OnDrag(old(Model()), position, change) && Valid()
    {
      motionEvent := ScreenModel.Move;
      currentPosition := position;
      if drawMode == ScreenModel.Touch {
        TranslatePaths(change);
        currentPath := TranslatePath(currentPath, change);
      }
    }

    /** The `forEach` that translates each committed path in place, in list order. */
    method TranslatePaths(change: Delta)
      modifies this
      ensures paths == TranslateStrokes(old(paths), change)
      ensures Model() == old(Model()).(history := History(paths, old(pathsUndone)))
    {
      var i := 0;
      while i < |paths|
        invariant |paths| == |old(paths)| && 0 <= i <= |paths|
        invariant forall k :: 0 <= k < i ==>
          paths[k] == old(paths)[k].(path := TranslatePath(old(paths)[k].path, change))
        invariant paths[i..] == old(paths)[i..]
        invariant Model() == old(Model()).(history := History(paths, old(pathsUndone)))
      {
        assert paths[i] == old(paths)[i..][0];
        paths := paths[i := paths[i].(path := TranslatePath(paths[i].path, change))];
        i := i + 1;
      }
    }

    method OnDragEnd()
      requires Valid()
      modifies this
      ensures Model() == ScreenModel.OnDragEnd(old(Model())) && Valid()
    {
      motionEvent := ScreenModel.Up;
    }

    /** One canvas frame: the phase `when`, then the calls issued to the canvas. */
    method Frame() returns (ops: seq<CanvasOp>)
      requires Valid()
      modifies this
      ensures Model() == ScreenModel.Frame(old(Model())) && Valid()
      ensures ops == ScreenModel.Render(Model())
    {
      Phase();
      ops := Draw();
    }

    /** The phase `when` at the start of a frame. */
    method Phase()
      requires Valid()
      modifies this
      ensures Model() == ScreenModel.Frame(old(Model())) && Valid()
    {
      match motionEvent {
        case Down =>
          if drawMode != ScreenModel.Touch {
            currentPath := currentPath + [MoveTo(currentPosition)];
          }
          previousPosition := currentPosition;
        case Move =>
          if drawMode != ScreenModel.Touch {
            currentPath := currentPath
              + [QuadraticBezierTo(previousPosition, Midpoint(previousPosition, currentPosition))];
          }
          previousPosition := currentPosition;
        case Up =>
          EndStroke();
        case Idle =>
      }
    }

    /** The `Up` branch: outside touch mode the path is committed; then, in every
        mode, the redo stack is emptied and the gesture state reset. */
    method EndStroke()
      requires Valid() && motionEvent == ScreenModel.Up
      modifies this
      ensures Model() == ScreenModel.Frame(old(Model())) && Valid()
      ensures old(drawMode) != ScreenModel.Touch ==> fresh(currentPathProperty)
    {
      if drawMode != ScreenModel.Touch {
        CommitStroke();
      }
      pathsUndone := [];
      currentPosition := Unspecified;
      previousPosition := currentPosition;
      motionEvent := ScreenModel.Idle;
    }

    /** The path is closed with a line to the current position and added with the
        current properties object; a new path and a new properties object with the
        same style are started. */
    method CommitStroke()
      modifies this
      ensures paths == old(paths)
        + [Stroke(old(currentPathId), old(currentPath) + [LineTo(currentPosition)], old(currentPathProperty.Value()))]
      ensures currentPath == [] && currentPathId == old(currentPathId) + 1
      ensures currentPathProperty.Value() == NextStrokeProperties(old(currentPathProperty.Value()))
      ensures fresh(currentPathProperty)
      ensures pathsUndone == old(pathsUndone) && motionEvent == old(motionEvent) && drawMode == old(drawMode)
      ensures currentPosition == old(currentPosition) && previousPosition == old(previousPosition)
    {
      currentPath := currentPath + [LineTo(currentPosition)];
      paths := paths + [Stroke(currentPathId, currentPath, currentPathProperty.Value())];
      currentPath := [];
      currentPathId := currentPathId + 1;
      var p := currentPathProperty;
      currentPathProperty := new PathPropertiesObject(
        strokeWidth := p.strokeWidth,
        color := p.color,
        strokeCap := p.strokeCap,
        strokeJoin := p.strokeJoin,
        eraseMode := p.eraseMode);
    }

    /** The drawing half of a frame: the layer is opened, the committed strokes
        are drawn, then the path being drawn unless the phase is Idle, and the
        layer is merged. */
    method Draw() returns (ops: seq<CanvasOp>)
      ensures ops == ScreenModel.Render(Model())
    {
      var strokes := DrawStrokes();
      var inProgress := if motionEvent != ScreenModel.Idle then [PathOp(currentPath, currentPathProperty.Value())] else [];
      ops := [SaveLayer] + strokes + inProgress + [RestoreToCount];
    }

    /** The `forEach` over the committed strokes, one call each, in order. */
    method DrawStrokes() returns (ops: seq<CanvasOp>)
      ensures ops == StrokeOps(paths)
    {
      ops := [];
      var i := 0;
      while i < |paths|
        invariant 0 <= i <= |paths|
        invariant ops == StrokeOps(paths[..i])
      {
        var done, s := paths[..i], paths[i];
        assert paths[..i + 1] == done + [s];
        StrokeOpsAppend(done, s);
        ops := ops + [PathOp(s.path, s.properties)];
        i := i + 1;
      }
      assert paths[..i] == paths;
    }

    /** `paths.remove(lastItem)` takes out the first stroke equal to the last one,
        which under `Valid()` is the last one. */
    method OnUndo()
      requires Valid()
      modifies this
      ensures Model() == ScreenModel.OnUndo(old(Model())) && Valid()
    {
      if |paths| > 0 {
        var lastItem := paths[|paths| - 1];
        LastStrokeUnique(paths);
        RemoveFirstOfLast(paths);
        paths := RemoveFirst(paths, lastItem);
        pathsUndone := pathsUndone + [Stroke(lastItem.id, lastItem.path, lastItem.properties)];
      }
    }

    method OnRedo()
      requires Valid()
      modifies this
      ensures Model() == ScreenModel.OnRedo(old(Model())) && Valid()
    {
      if |pathsUndone| > 0 {
        var last := pathsUndone[|pathsUndone| - 1];
        pathsUndone := pathsUndone[..|pathsUndone| - 1];
        paths := paths + [Stroke(last.id, last.path, last.properties)];
      }
    }

    method OnPathPropertiesChange()
      requires Valid()
      modifies this
      ensures Model() == ScreenModel.OnPathPropertiesChange(old(Model())) && Valid()
    {
      motionEvent := ScreenModel.Idle;
    }

    /** The erase flag is assigned on the current properties object itself. */
    method OnDrawModeChanged(mode: ScreenModel.DrawMode)
      requires Valid()
      modifies this, currentPathProperty
      ensures Model() == ScreenModel.OnDrawModeChanged(old(Model()), mode) && Valid()
      ensures currentPathProperty == old(currentPathProperty)
    {
      motionEvent := ScreenModel.Idle;
      drawMode := mode;
      currentPathProperty.eraseMode := drawMode == ScreenModel.Erase;
    }
  }

  /** A whole gesture driven through the callbacks, with a frame after each one:
      drag start, one drag per sample, drag end. The object ends in the state the
      value-level `Gesture` gives, and the last frame's calls are its rendering. */
  method RunGesture(screen: DrawingScreen, start: Offset, samples: seq<Gestures.DragSample>)
    returns (ops: seq<CanvasOp>)
    requires screen.Valid()
    modifies screen
    ensures screen.Model() == Gestures.Gesture(old(screen.Model()), start, samples) && screen.Valid()
    ensures ops == ScreenModel.Render(screen.Model())
  {
    screen.OnDragStart(start);
    ops := screen.Frame();
    ghost var s0 := screen.Model();
    for i := 0 to |samples|
      invariant screen.Model() == Gestures.Drags(s0, samples[..i]) && screen.Valid()
    {
      screen.OnDrag(samples[i].position, samples[i].change);
      ops := screen.Frame();
      Gestures.DragsPrefix(s0, samples, i);
    }
    assert samples[..|samples|] == samples;
    screen.OnDragEnd();
    ops := screen.Frame();
  }

  /** A stroke on a new screen: drag start at (0, 0), drags to
      (10, 0) and (20, 0), drag end. The last frame draws the one committed stroke,
      whose final line goes to the last dragged position, in the default style. */
  method DrawOneStroke() returns (ops: seq<CanvasOp>)
    ensures ops == [SaveLayer,
                    DrawPath([MoveTo(Offset(0.0, 0.0)),
                              QuadraticBezierTo(Offset(0.0, 0.0), Offset(5.0, 0.0)),
                              QuadraticBezierTo(Offset(10.0, 0.0), Offset(15.0, 0.0)),
                              LineTo(Offset(20.0, 0.0))],
                             Black, StrokeStyle(10.0, StrokeCap.Round, StrokeJoin.Round), SrcOver),
                    RestoreToCount]
  {
    var screen := new DrawingScreen();
    ghost var s := screen.Model();
    var x := Gestures.DragSample(Offset(10.0, 0.0), Delta(10.0, 0.0));
    var y := Gestures.DragSample(Offset(20.0, 0.0), Delta(10.0, 0.0));
    ops := RunGesture(screen, Offset(0.0, 0.0), [x, y]);
    Gestures.TwoDragStroke(s, Offset(0.0, 0.0), x, y);
  }
}
