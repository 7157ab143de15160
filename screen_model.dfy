/** The state of the drawing screen and its transitions, one function per callback:
    the three drag handlers, the canvas frame, undo, redo and the two menu
    callbacks. A frame runs the phase `when` first and then draws. */
module ScreenModel {
  import opened Geometry
  import opened Paths
  import opened Properties
  import opened StrokeHistory
  import opened Rendering

  datatype MotionEvent = Idle | Down | Move | Up

  datatype DrawMode = Draw | Touch | Erase

  /** Everything the screen remembers between callbacks. `currentPathId` is the
      identity of the path object `currentPath` is built in. */
  datatype State = State(
    history: History,
    motionEvent: MotionEvent,
    currentPosition: Offset,
    previousPosition: Offset,
    drawMode: DrawMode,
    currentPath: Path,
    currentPathProperty: PathProperties,
    currentPathId: nat)

  /** Every path object is in one place only, and the one being drawn into is none
      of the committed or undone ones. */
  predicate Valid(s: State)
  {
    WellFormed(s.history) && IssuedBefore(s.history, s.currentPathId)
  }

  /** The remembered state when the screen is first composed. */
  function Initial(): (s: State)
    ensures Valid(s) && s.history.All() == [] && s.currentPath == []
    ensures s.currentPathProperty == PathProperties() && s.drawMode == Draw && s.motionEvent == Idle
    ensures s.currentPosition == Unspecified && s.previousPosition == Unspecified
  {
    State(History([], []), Idle, Unspecified, Unspecified, Draw, [], PathProperties(), 0)
  }

  /** `onDragStart`: record the phase and the pointer position; nothing is built
      until the next frame. */
  function OnDragStart(s: State, position: Offset): (r: State)
    ensures r.motionEvent == Down && r.currentPosition == position
    ensures r.(motionEvent := s.motionEvent, currentPosition := s.currentPosition) == s
    ensures Valid(s) ==> Valid(r)
  {
    s.(motionEvent := Down, currentPosition := position)
  }

  /** `onDrag`: record the phase and the position; in touch mode also pan every
      committed path and the path being drawn by the pointer's change. The redo
      stack is never panned. */
  function OnDrag(s: State, position: Offset, change: Delta): (r: State)
    ensures r.motionEvent == Move && r.currentPosition == position
    ensures r.history.pathsUndone == s.history.pathsUndone
    ensures s.drawMode == Touch ==>
      r.history.paths == TranslateStrokes(s.history.paths, change)
      && r.currentPath == TranslatePath(s.currentPath, change)
    ensures s.drawMode != Touch ==> r.history == s.history && r.currentPath == s.currentPath
    ensures r.(motionEvent := s.motionEvent, currentPosition := s.currentPosition,
               history := s.history, currentPath := s.currentPath) == s
    ensures Valid(s) ==> Valid(r)
  {
    var moved := s.(motionEvent := Move, currentPosition := position);
    if s.drawMode == Touch then
      var r := moved.(history := History(TranslateStrokes(s.history.paths, change), s.history.pathsUndone),
                      currentPath := TranslatePath(s.currentPath, change));
      PanKeepsValid(s, change);
      r
    else moved
  }

  /** `onDragEnd`: only the phase changes; the position stays the last one dragged to. */
  function OnDragEnd(s: State): (r: State)
    ensures r.motionEvent == Up && r.(motionEvent := s.motionEvent) == s
    ensures Valid(s) ==> Valid(r)
  {
    s.(motionEvent := Up)
  }

  /** The phase `when` at the start of a canvas frame.
      Down: outside touch mode the path moves to the current position.
      Move: outside touch mode a quadratic segment is added whose control point is
      the previous position and whose end is halfway to the current one.
      Both then make the current position the previous one.
      Up: outside touch mode the path is closed with a line to the current position
      and committed with the current properties, and a new path and new properties
      (same style, default alpha) are started; in every mode the redo stack is
      emptied, both positions become unspecified and the phase returns to Idle.
      Idle: nothing happens. The draw mode never changes. */
  function Frame(s: State): (r: State)
    ensures r.drawMode == s.drawMode
    ensures s.motionEvent == Down ==>
      && r.currentPath == s.currentPath + (if s.drawMode != Touch then [MoveTo(s.currentPosition)] else [])
      && r.previousPosition == s.currentPosition
      && r.(currentPath := s.currentPath, previousPosition := s.previousPosition) == s
    ensures s.motionEvent == Move ==>
      && r.currentPath == s.currentPath
           + (if s.drawMode != Touch
              then [QuadraticBezierTo(s.previousPosition, Midpoint(s.previousPosition, s.currentPosition))]
              else [])
      && r.previousPosition == s.currentPosition
      && r.(currentPath := s.currentPath, previousPosition := s.previousPosition) == s
    ensures s.motionEvent == Up ==>
      && r.motionEvent == Idle && r.currentPosition == Unspecified && r.previousPosition == Unspecified
      && r.history.pathsUndone == []
      && (s.drawMode != Touch ==>
            && r.history.paths == s.history.paths
                 + [Stroke(s.currentPathId, s.currentPath + [LineTo(s.currentPosition)], s.currentPathProperty)]
            && r.currentPath == [] && r.currentPathId == s.currentPathId + 1
            && r.currentPathProperty.SameStyle(s.currentPathProperty)
            && r.currentPathProperty.alpha == PathProperties().alpha)
      && (s.drawMode == Touch ==>
            && r.history.paths == s.history.paths && r.currentPath == s.currentPath
            && r.currentPathProperty == s.currentPathProperty && r.currentPathId == s.currentPathId)
    ensures s.motionEvent == Idle ==> r == s
    ensures Valid(s) ==> Valid(r)
  {
    match s.motionEvent
    case Down =>
      var path := if s.drawMode != Touch then s.currentPath + [MoveTo(s.currentPosition)] else s.currentPath;
      s.(currentPath := path, previousPosition := s.currentPosition)
    case Move =>
      var path :=
        if s.drawMode != Touch
        then s.currentPath + [QuadraticBezierTo(s.previousPosition, Midpoint(s.previousPosition, s.currentPosition))]
        else s.currentPath;
      s.(currentPath := path, previousPosition := s.currentPosition)
    case Up =>
      var ended := s.(motionEvent := Idle, currentPosition := Unspecified, previousPosition := Unspecified);
      if s.drawMode != Touch then
        var stroke := Stroke(s.currentPathId, s.currentPath + [LineTo(s.currentPosition)], s.currentPathProperty);
        var r := ended.(history := Commit(s.history, stroke), currentPath := [],
                        currentPathProperty := NextStrokeProperties(s.currentPathProperty),
                        currentPathId := s.currentPathId + 1);
        assert Valid(s) ==> Valid(r) by {
          if Valid(s) {
            CommitPreservesValid(s, stroke);
          }
        }
        r
      else
        var r := ended.(history := ClearRedo(s.history));
        r
    case Idle => s
  }

  /** Panning changes no identity, so the invariant survives it. */
  lemma PanKeepsValid(s: State, change: Delta)
    ensures var h := History(TranslateStrokes(s.history.paths, change), s.history.pathsUndone);
      Valid(s) ==> Valid(s.(history := h))
  {
  }

  /** Committing the path object being drawn, and then starting a new one, keeps
      every path object in one place. */
  lemma CommitPreservesValid(s: State, stroke: Stroke)
    requires Valid(s) && stroke.id == s.currentPathId
    ensures var h := Commit(s.history, stroke);
      WellFormed(h) && IssuedBefore(h, s.currentPathId + 1)
  {
    var h := Commit(s.history, stroke);
    var p := s.history.paths;
    assert h.paths == p + [stroke];
    forall i, j | 0 <= i < j < |h.paths| ensures h.paths[i].id != h.paths[j].id {
      if j == |p| {
        assert h.paths[i] == p[i];
      }
    }
  }

  /** `onUndo`: the last committed stroke moves to the top of the redo stack. */
  function OnUndo(s: State): (r: State)
    ensures r.history == Undo(s.history) && r.(history := s.history) == s
    ensures Valid(s) ==> Valid(r)
  {
    var r := s.(history := Undo(s.history));
    assert Valid(s) ==> Valid(r) by {
      if Valid(s) {
        UndoPreservesWellFormed(s.history);
        UndoKeepsIssued(s.history, s.currentPathId);
      }
    }
    r
  }

  /** `onRedo`: the top of the redo stack is committed again. */
  function OnRedo(s: State): (r: State)
    ensures r.history == Redo(s.history) && r.(history := s.history) == s
    ensures Valid(s) ==> Valid(r)
  {
    var r := s.(history := Redo(s.history));
    assert Valid(s) ==> Valid(r) by {
      if Valid(s) {
        RedoPreservesWellFormed(s.history);
        RedoKeepsIssued(s.history, s.currentPathId);
      }
    }
    r
  }

  /** `onDrawModeChanged`: the phase returns to Idle, the mode is recorded and the
      current properties erase exactly in erase mode. Strokes, the redo stack and
      the path being drawn are kept. */
  function OnDrawModeChanged(s: State, mode: DrawMode): (r: State)
    ensures r.motionEvent == Idle && r.drawMode == mode
    ensures r.currentPathProperty.eraseMode == (mode == Erase)
    ensures r.currentPathProperty == s.currentPathProperty.(eraseMode := r.currentPathProperty.eraseMode)
    ensures r.(motionEvent := s.motionEvent, drawMode := s.drawMode,
               currentPathProperty := s.currentPathProperty) == s
    ensures Valid(s) ==> Valid(r)
  {
    s.(motionEvent := Idle, drawMode := mode,
       currentPathProperty := s.currentPathProperty.(eraseMode := mode == Erase))
  }

  /** `onPathPropertiesChange`: the phase returns to Idle. */
  function OnPathPropertiesChange(s: State): (r: State)
    ensures r.motionEvent == Idle && r.(motionEvent := s.motionEvent) == s
    ensures Valid(s) ==> Valid(r)
  {
    s.(motionEvent := Idle)
  }

  /** The calls a frame issues after its phase `when`: the committed strokes, then
      the path being drawn unless the phase is Idle. */
  function Render(s: State): seq<CanvasOp>
  {
    FrameOps(s.history.paths, s.motionEvent != Idle, s.currentPath, s.currentPathProperty)
  }
}
