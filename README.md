# DrawKt drawing screen in Dafny

This project models the logic of the `DrawingScreen` composable of DrawKt, a
freehand drawing app for Android. The screen remembers the following state:

- the committed strokes `paths`, each a pair of a path and its `PathProperties`;
- the redo stack `pathsUndone`;
- the pointer phase `motionEvent` and the current and previous pointer positions;
- the draw mode (Draw, Touch or Erase);
- the path being drawn and its properties.

The state changes in three places:

- The drag handlers record the phase; the drag start and the drag also record the position. In Touch mode the drag also pans every committed path and the path being drawn.
- Each canvas frame first runs a phase step. Outside Touch mode it builds the path: a Down frame moves to the pointer, a Move frame adds a quadratic segment ending halfway to the pointer, and an Up frame closes the path with a line and commits it. In Touch mode the phase step only moves the previous position along. In every mode an Up frame empties the redo stack, resets both positions and returns to Idle. The frame then issues an ordered list of draw calls inside an off-screen layer. An erasing stroke is drawn with a clearing blend mode.
- The menu callbacks are undo, redo, the mode switch and the properties change.

The project has two layers:

- **Value layer.** Modules `Geometry`, `Paths`, `Properties`, `StrokeHistory`, `Rendering`, `ScreenModel` and `Gestures`. A state is a datatype, and each callback and the frame is a function on it. Lemmas prove the laws the screen promises:
  - undo and redo are inverses;
  - a commit invalidates redo;
  - panning can be undone and composes;
  - a gesture builds a smoothed stroke;
  - nothing else changes.
- **Object layer.** Module `Screen`. Class `DrawingScreen` holds the same state in mutable fields. Each callback is a method that updates the fields in place, as the Kotlin lambdas do. Each callback method is proved to perform exactly the transition of its value-level function and to keep the invariant `Valid()`. `PathPropertiesObject` is the mutable `PathProperties` class, with its in-place `copyFrom`.

Path objects are mutable and shared by reference in the source. Here each one has an identity number (`Stroke.id`, `currentPathId`). This lets `paths.remove(lastItem)` be modelled as it is written: it removes the first element equal to the last one. The invariant that no path object is in two places then proves that this removes the last stroke.

Coordinates and widths are `real`, so midpoints and translations are exact. `Offset.Unspecified` is a separate constructor. A point computed from it, by midpoint or translation, is again unspecified.

In these points the code behaves in ways a reader may not expect; the model follows the code:

- The drag-end handler receives a pointer change with a position but does not read it, so a stroke ends with a line to the last *dragged* position, not the end event's position (`Gestures.TwoDragStroke`, `Screen.DrawOneStroke`).
- A mode switch keeps the path being drawn and hides it until the next gesture. When that gesture is outside Touch mode, it continues the path and commits it (`Gestures.ModeChangeKeepsPartialPath`). A Touch-mode gesture shows it, pans it and commits nothing (`Gestures.ModeChangeToTouchPansPartialPath`).
- The redo stack is emptied at the end of every gesture, including a Touch-mode pan (`Gestures.TouchGesturePans`).
- The properties for the next stroke are rebuilt without `alpha`, which returns to its default of 1 (`Properties.NextStrokeProperties`).
- The redo stack is never panned. Every pan ends with an Up frame that empties it, so this shows only when a stroke is undone and redone while a pan's drag is still going on: it misses the pan steps made while it was on the stack (`ScreenModel.OnDrag`).

The Kotlin files that declare the `MotionEvent` and `DrawMode` enums and the `dragMotionEvent` modifier are not part of this model. `ScreenModel` declares the two enums with the constructors their uses in `DrawingScreen.kt` show.

## Model

| member | source | states |
|---|---|---|
| Geometry.Translate | app/src/main/java/com/canvas/DrawingScreen.kt:112-120 | a pan moves a specified point by exactly the displacement; an unspecified point stays unspecified |
| Geometry.Midpoint | app/src/main/java/com/canvas/DrawingScreen.kt:146-152 | the segment end `(previous + current) / 2` is equidistant from both points, and unspecified iff either point is |
| Geometry.Delta.Negated | app/src/main/java/com/canvas/DrawingScreen.kt:112-120 | the opposite displacement sums with the original to zero |
| Geometry.TranslateInverse | app/src/main/java/com/canvas/DrawingScreen.kt:112-120 | translating by d and then by -d restores the point |
| Geometry.TranslateCompose | app/src/main/java/com/canvas/DrawingScreen.kt:112-120 | two translations are one by the summed displacement |
| Geometry.TranslateZero | app/src/main/java/com/canvas/DrawingScreen.kt:112-120 | a zero displacement leaves the point as it is |
| Paths.TranslateCommand | app/src/main/java/com/canvas/DrawingScreen.kt:116-118 | `Path.translate` shifts each point of one command by the displacement and keeps the command's kind |
| Paths.TranslatePath | app/src/main/java/com/canvas/DrawingScreen.kt:117-119 | `Path.translate` keeps the command count and shifts every command of the path |
| Paths.TranslateCommandInverse | app/src/main/java/com/canvas/DrawingScreen.kt:112-120 | a command translated by d and then -d is restored, for every command kind |
| Paths.TranslateCommandCompose | app/src/main/java/com/canvas/DrawingScreen.kt:112-120 | a command translated twice is translated once by the sum |
| Paths.TranslatePathInverse | app/src/main/java/com/canvas/DrawingScreen.kt:112-120 | panning a path by d and then -d restores every coordinate |
| Paths.TranslatePathCompose | app/src/main/java/com/canvas/DrawingScreen.kt:112-120 | two pans of a path are one pan by the summed displacement |
| Paths.TranslatePathZero | app/src/main/java/com/canvas/DrawingScreen.kt:112-120 | a zero pan leaves the path unchanged |
| Properties.PathProperties.Copy | app/src/main/java/com/canvas/DrawingScreen.kt:513-522 | `copy` gives a new value with each field from its argument or, when left out, from this one |
| Properties.CopyFromIsCopy | app/src/main/java/com/canvas/DrawingScreen.kt:513-530 | `copyFrom` onto a value equals its `copy` with the other value's width, colour, cap, join and erase flag passed |
| Properties.CopyWithoutArguments | app/src/main/java/com/canvas/DrawingScreen.kt:513-522 | a `copy` with every argument left out has all the original's fields |
| Properties.PathProperties.CopyFrom | app/src/main/java/com/canvas/DrawingScreen.kt:524-530 | after `copyFrom` the value has the source's width, colour, cap, join and erase flag and keeps its own alpha; it is unchanged iff it already had that style |
| Properties.PathPropertiesObject.constructor | app/src/main/java/com/canvas/DrawingScreen.kt:504-511 | a new properties object holds the given fields, each defaulting to width 10, black, alpha 1, round cap, round join, not erasing |
| Properties.PathPropertiesObject.CopyFrom | app/src/main/java/com/canvas/DrawingScreen.kt:524-530 | the in-place `copyFrom` leaves the object holding the value-level `CopyFrom` of what both objects held before, also when the source is the object itself |
| Properties.NextStrokeProperties | app/src/main/java/com/canvas/DrawingScreen.kt:166-172 | the properties built after a commit have the committed style and the default alpha |
| Properties.NextStrokeIsCopyFromDefault | app/src/main/java/com/canvas/DrawingScreen.kt:166-172 | building the next properties field by field equals `copyFrom` of the committed properties onto a default object |
| Properties.CopyFromTwice | app/src/main/java/com/canvas/DrawingScreen.kt:524-530 | `copyFrom` is idempotent and only the last source matters |
| Properties.CapIndex | app/src/main/java/com/canvas/DrawingScreen.kt:461-465 | the stroke-cap menu shows Butt at 0, Round at 1 and Square at 2, as in its option list |
| Properties.CapAt | app/src/main/java/com/canvas/DrawingScreen.kt:469-473 | a menu selection maps to the cap shown at that index; any index other than 0 or 1 selects Square |
| Properties.JoinIndex | app/src/main/java/com/canvas/DrawingScreen.kt:481-485 | the stroke-join menu shows Miter at 0, Round at 1 and Bevel at 2, as in its option list |
| Properties.JoinAt | app/src/main/java/com/canvas/DrawingScreen.kt:490-494 | a menu selection maps to the join shown at that index; any index other than 0 or 1 selects Bevel |
| Properties.MenuIndexRoundTrip | app/src/main/java/com/canvas/DrawingScreen.kt:461-494 | selecting the index a cap or join is shown at gives back that cap or join |
| StrokeHistory.FirstIndex | app/src/main/java/com/canvas/DrawingScreen.kt:264 | the index `remove` looks for holds the element and no earlier index does |
| StrokeHistory.RemoveFirst | app/src/main/java/com/canvas/DrawingScreen.kt:264 | `remove` of a present element takes out its first occurrence and keeps the other elements in order (so the length drops by one and one copy leaves the multiset); an absent element leaves the list as it is |
| StrokeHistory.RemoveFirstOfLast | app/src/main/java/com/canvas/DrawingScreen.kt:261-264 | removing the first element equal to the last one drops the last element when it occurs nowhere else |
| StrokeHistory.LastStrokeUnique | app/src/main/java/com/canvas/DrawingScreen.kt:261-264 | with distinct path objects, the last committed stroke occurs only at the end of the list |
| StrokeHistory.Undo | app/src/main/java/com/canvas/DrawingScreen.kt:258-269 | a non-empty `paths` loses its last stroke, which goes on top of `pathsUndone`; an empty `paths` changes nothing; the total count is kept |
| StrokeHistory.Redo | app/src/main/java/com/canvas/DrawingScreen.kt:270-278 | a non-empty redo stack loses its top, which is appended to `paths`; an empty one changes nothing; the total count is kept |
| StrokeHistory.Commit | app/src/main/java/com/canvas/DrawingScreen.kt:158-175 | ending a stroke appends exactly that stroke after the earlier ones and leaves nothing to redo |
| StrokeHistory.ClearRedo | app/src/main/java/com/canvas/DrawingScreen.kt:175 | clearing the redo stack keeps `paths` and makes redo a no-op |
| StrokeHistory.RedoUndo | app/src/main/java/com/canvas/DrawingScreen.kt:258-278 | undo followed by redo restores both lists exactly |
| StrokeHistory.UndoRedo | app/src/main/java/com/canvas/DrawingScreen.kt:258-278 | redo followed by undo restores both lists exactly |
| StrokeHistory.UndoPreservesWellFormed | app/src/main/java/com/canvas/DrawingScreen.kt:258-269 | undo keeps every path object in one place and neither loses nor creates a stroke |
| StrokeHistory.RedoPreservesWellFormed | app/src/main/java/com/canvas/DrawingScreen.kt:270-278 | redo keeps every path object in one place and neither loses nor creates a stroke |
| StrokeHistory.IssuedBefore | app/src/main/java/com/canvas/DrawingScreen.kt:162 | every path object in the history was created before the one numbered n |
| StrokeHistory.UndoKeepsIssued | app/src/main/java/com/canvas/DrawingScreen.kt:258-269 | undo brings in no path object younger than those already there |
| StrokeHistory.RedoKeepsIssued | app/src/main/java/com/canvas/DrawingScreen.kt:270-278 | redo brings in no path object younger than those already there |
| StrokeHistory.UndoTimesShapeStep | app/src/main/java/com/canvas/DrawingScreen.kt:258-269 | one more undo extends the shape of k-1 undos to k |
| StrokeHistory.UndoTimesShape | app/src/main/java/com/canvas/DrawingScreen.kt:258-269 | k undos leave the first n-k strokes and push the last k onto the redo stack in reverse order |
| StrokeHistory.UndoAllEmpties | app/src/main/java/com/canvas/DrawingScreen.kt:258-269 | undoing every stroke empties `paths` and moves all of them to the redo stack |
| StrokeHistory.UndoTimesThenRedoTimes | app/src/main/java/com/canvas/DrawingScreen.kt:258-278 | k undos followed by k redos restore both lists in their original order |
| StrokeHistory.CommitInvalidatesRedo | app/src/main/java/com/canvas/DrawingScreen.kt:175 | after any number of undos and a new commit, any number of redos changes nothing |
| StrokeHistory.RedoTimesAfterNoRedo | app/src/main/java/com/canvas/DrawingScreen.kt:270-278 | with an empty redo stack, repeated redos change nothing |
| StrokeHistory.TranslateStrokes | app/src/main/java/com/canvas/DrawingScreen.kt:115-118 | the pan's `forEach` translates the path of every committed stroke and keeps its identity and properties |
| StrokeHistory.TranslateStrokesInverse | app/src/main/java/com/canvas/DrawingScreen.kt:112-120 | panning the strokes by d and then -d restores them |
| StrokeHistory.TranslateStrokesCompose | app/src/main/java/com/canvas/DrawingScreen.kt:112-120 | two pans of the strokes are one pan by the summed displacement |
| StrokeHistory.TranslateStrokesZero | app/src/main/java/com/canvas/DrawingScreen.kt:112-120 | a zero pan leaves the strokes unchanged |
| Rendering.PathOp | app/src/main/java/com/canvas/DrawingScreen.kt:194-217 | a stroke is one draw call with its own path, width, cap and join; it clears with a transparent colour iff it erases, else it paints in its colour |
| Rendering.StrokeOps | app/src/main/java/com/canvas/DrawingScreen.kt:189-218 | one draw call per committed stroke, in list order |
| Rendering.FrameOps | app/src/main/java/com/canvas/DrawingScreen.kt:185-246 | the frame opens the layer first and restores it last; every call between is a draw call; committed strokes come in order; the in-progress stroke comes last exactly when the phase is not Idle |
| Rendering.StrokeOpsAppend | app/src/main/java/com/canvas/DrawingScreen.kt:189-218 | one more committed stroke adds exactly its call at the end of the committed calls |
| Rendering.FrameOpsAppend | app/src/main/java/com/canvas/DrawingScreen.kt:185-246 | one more committed stroke inserts exactly its call after the earlier strokes' calls and leaves every other call in place |
| ScreenModel.Valid | app/src/main/java/com/canvas/DrawingScreen.kt:158-169 | the invariant: no path object is both committed and on the redo stack or twice in either, and the one being drawn into is none of them, which `remove(lastItem)` at :264 relies on |
| ScreenModel.Initial | app/src/main/java/com/canvas/DrawingScreen.kt:64-78 | the first state has no strokes, an empty path, default properties, Draw mode, the Idle phase and both positions unspecified, and is valid |
| ScreenModel.OnDragStart | app/src/main/java/com/canvas/DrawingScreen.kt:102-107 | the phase becomes Down and the position the pointer's; nothing else changes; validity is kept |
| ScreenModel.OnDrag | app/src/main/java/com/canvas/DrawingScreen.kt:108-123 | the phase becomes Move and the position the pointer's. In Touch mode every committed path and the current path are translated by the change and the redo stack is untouched; otherwise nothing else changes. Validity is kept |
| ScreenModel.OnDragEnd | app/src/main/java/com/canvas/DrawingScreen.kt:124-127 | only the phase changes, to Up; the position stays the last dragged one |
| ScreenModel.Frame | app/src/main/java/com/canvas/DrawingScreen.kt:132-183 | Down and Move: outside Touch mode append moveTo, or a quadratic segment whose control is the previous position and whose end is the midpoint; both set previous to current. Up: outside Touch mode commit the path closed by lineTo with the current properties and start a new path with same-style default-alpha properties; in every mode empty the redo stack, unset both positions and return to Idle. Idle changes nothing. The draw mode never changes and validity is kept |
| ScreenModel.PanKeepsValid | app/src/main/java/com/canvas/DrawingScreen.kt:112-120 | panning changes no path object's identity, so validity survives it |
| ScreenModel.CommitPreservesValid | app/src/main/java/com/canvas/DrawingScreen.kt:158-173 | committing the current path object keeps every path object in one place |
| ScreenModel.OnUndo | app/src/main/java/com/canvas/DrawingScreen.kt:258-269 | undo changes only the history, as `Undo`, and keeps validity |
| ScreenModel.OnRedo | app/src/main/java/com/canvas/DrawingScreen.kt:270-278 | redo changes only the history, as `Redo`, and keeps validity |
| ScreenModel.OnPathPropertiesChange | app/src/main/java/com/canvas/DrawingScreen.kt:279-281 | only the phase changes, to Idle |
| ScreenModel.Render | app/src/main/java/com/canvas/DrawingScreen.kt:185-246 | a frame's draw block issues `FrameOps` of the state: the committed strokes, then the path being drawn unless the phase is Idle |
| ScreenModel.OnDrawModeChanged | app/src/main/java/com/canvas/DrawingScreen.kt:282-287 | the phase becomes Idle and the mode is recorded; the current properties' erase flag is set iff the mode is Erase and is their only change; strokes, redo stack and current path are kept |
| Gestures.Drags | app/src/main/java/com/canvas/DrawingScreen.kt:108-156 | a run of drag callbacks, each followed by a canvas frame, in sample order |
| Gestures.Gesture | app/src/main/java/com/canvas/DrawingScreen.kt:102-183 | a whole gesture: drag start and a frame, the drags each with a frame, then drag end and a frame |
| Gestures.Segments | app/src/main/java/com/canvas/DrawingScreen.kt:146-152 | a polyline of n points gives n-1 smoothed segments |
| Gestures.SegmentsAt | app/src/main/java/com/canvas/DrawingScreen.kt:146-152 | segment i has control point i and ends halfway between points i and i+1 |
| Gestures.DragsPreserveValid | app/src/main/java/com/canvas/DrawingScreen.kt:108-156 | any run of drags, each followed by a frame, keeps validity |
| Gestures.SegmentsCons | app/src/main/java/com/canvas/DrawingScreen.kt:146-152 | the first segment of a polyline is controlled by its first point and ends halfway to the second |
| Gestures.DragStep | app/src/main/java/com/canvas/DrawingScreen.kt:143-156 | outside Touch mode one drag and its frame append one segment controlled by the previous position and ending halfway to the new one, make the new position both the current and the previous one, and change nothing else |
| Gestures.DragsAppend | app/src/main/java/com/canvas/DrawingScreen.kt:108-156 | one more sample after a run of drags continues that run with one more drag and frame |
| Gestures.DragsPrefix | app/src/main/java/com/canvas/DrawingScreen.kt:108-156 | the run over the first i+1 samples is the run over the first i followed by sample i |
| Gestures.DragsBuildSegments | app/src/main/java/com/canvas/DrawingScreen.kt:143-156 | outside Touch mode a run of drags extends the path by the smoothed segments of the polyline from the previous position through every sample |
| Gestures.DragsKeepStroke | app/src/main/java/com/canvas/DrawingScreen.kt:108-156 | outside Touch mode a run of drags leaves the history, mode, properties and path identity as they were; after at least one drag the phase is Move and both positions are the last sample's |
| Gestures.DrawGestureCommitsSmoothedStroke | app/src/main/java/com/canvas/DrawingScreen.kt:132-180 | a whole gesture outside Touch mode commits one stroke: the path moves to the start, has one segment per drag and ends with a line to the last position, with the current properties; nothing is left to redo |
| Gestures.TouchDragsPan | app/src/main/java/com/canvas/DrawingScreen.kt:112-120 | in Touch mode a run of drags translates the committed paths and the current path by the summed change and builds nothing |
| Gestures.TouchGesturePans | app/src/main/java/com/canvas/DrawingScreen.kt:108-180 | a whole Touch-mode gesture commits nothing; it pans every stroke by the total change and empties the redo stack |
| Gestures.PanBackRestores | app/src/main/java/com/canvas/DrawingScreen.kt:112-120 | two Touch-mode drags by opposite changes restore every committed path and the current path |
| Gestures.DragStartOverwritten | app/src/main/java/com/canvas/DrawingScreen.kt:102-110 | in any mode, a drag start followed by a drag with no frame between them acts as the drag alone, so the start's moveTo is lost |
| Gestures.LastHandlerWins | app/src/main/java/com/canvas/DrawingScreen.kt:108-123 | outside Touch mode, drags with no frame between them leave only the last phase and position |
| Gestures.RepeatedMoveFrame | app/src/main/java/com/canvas/DrawingScreen.kt:143-156 | a Move frame with no handler call since the last frame adds another segment, controlled by the current position and ending at its midpoint with itself |
| Gestures.RedoAfterStrokeEndIsNoOp | app/src/main/java/com/canvas/DrawingScreen.kt:175-179 | right after an Up frame, in any mode, redo changes nothing |
| Gestures.UndoThenRedoRestores | app/src/main/java/com/canvas/DrawingScreen.kt:258-278 | undo followed by redo restores the whole screen state |
| Gestures.UndoHidesLastStroke | app/src/main/java/com/canvas/DrawingScreen.kt:258-269 | after undo the frame's calls are those before, without the last committed stroke's call |
| Gestures.ModeChangeKeepsPartialPath | app/src/main/java/com/canvas/DrawingScreen.kt:282-287 | after a switch to a mode other than Touch the next frame does not draw the partial path, and the next gesture commits it as the beginning of its stroke |
| Gestures.ModeChangeToTouchPansPartialPath | app/src/main/java/com/canvas/DrawingScreen.kt:282-287 | after a switch into Touch mode the next gesture's Down frame issues the partial path's call with the current properties right after the committed strokes, its drags pan it and the strokes by the total change, and nothing is committed |
| Gestures.TwoDragStroke | app/src/main/java/com/canvas/DrawingScreen.kt:132-180 | a gesture with two drags, started with no path being drawn outside Touch mode, commits exactly moveTo the start, the two smoothed segments and lineTo the last dragged position, with the current properties, and leaves nothing to redo |
| Screen.DrawingScreen.constructor | app/src/main/java/com/canvas/DrawingScreen.kt:64-78 | the fields start as the initial state, which is valid |
| Screen.DrawingScreen.OnDragStart | app/src/main/java/com/canvas/DrawingScreen.kt:102-107 | the fields change exactly as `ScreenModel.OnDragStart`, keeping validity |
| Screen.DrawingScreen.OnDrag | app/src/main/java/com/canvas/DrawingScreen.kt:108-123 | the fields change exactly as `ScreenModel.OnDrag`, keeping validity |
| Screen.DrawingScreen.TranslatePaths | app/src/main/java/com/canvas/DrawingScreen.kt:115-118 | the in-place loop leaves `paths` as `TranslateStrokes` of the old list and changes no other field |
| Screen.DrawingScreen.OnDragEnd | app/src/main/java/com/canvas/DrawingScreen.kt:124-127 | the fields change exactly as `ScreenModel.OnDragEnd` |
| Screen.DrawingScreen.Frame | app/src/main/java/com/canvas/DrawingScreen.kt:130-247 | the fields change exactly as `ScreenModel.Frame` and the calls returned are those of the new state |
| Screen.DrawingScreen.Phase | app/src/main/java/com/canvas/DrawingScreen.kt:132-183 | the phase `when` changes the fields exactly as `ScreenModel.Frame` |
| Screen.DrawingScreen.EndStroke | app/src/main/java/com/canvas/DrawingScreen.kt:158-180 | the Up branch, with a new properties object after a commit, changes the fields exactly as `ScreenModel.Frame` |
| Screen.DrawingScreen.CommitStroke | app/src/main/java/com/canvas/DrawingScreen.kt:159-173 | the path closed by lineTo is appended with the current properties, a new empty path and a new properties object with the same style and default alpha are started, and nothing else changes |
| Screen.DrawingScreen.Draw | app/src/main/java/com/canvas/DrawingScreen.kt:185-246 | the calls returned are exactly `Render` of the state |
| Screen.DrawingScreen.DrawStrokes | app/src/main/java/com/canvas/DrawingScreen.kt:189-218 | the loop over the committed strokes returns exactly one call per stroke in order (`StrokeOps`) |
| Screen.DrawingScreen.OnUndo | app/src/main/java/com/canvas/DrawingScreen.kt:258-269 | `remove(lastItem)` and `add` change the fields exactly as `ScreenModel.OnUndo`, keeping validity |
| Screen.DrawingScreen.OnRedo | app/src/main/java/com/canvas/DrawingScreen.kt:270-278 | `removeLast` and `add` change the fields exactly as `ScreenModel.OnRedo` |
| Screen.DrawingScreen.OnPathPropertiesChange | app/src/main/java/com/canvas/DrawingScreen.kt:279-281 | the fields change exactly as `ScreenModel.OnPathPropertiesChange` |
| Screen.DrawingScreen.OnDrawModeChanged | app/src/main/java/com/canvas/DrawingScreen.kt:282-287 | assigning the erase flag on the current properties object changes the state exactly as `ScreenModel.OnDrawModeChanged` |
| Screen.RunGesture | app/src/main/java/com/canvas/DrawingScreen.kt:102-246 | a gesture driven through the callbacks, with a frame after each one, leaves the object in the state `Gestures.Gesture` gives and returns that state's rendering |
| Screen.DrawOneStroke | app/src/main/java/com/canvas/DrawingScreen.kt:102-246 | on a new screen, start (0,0) and drags to (10,0) and (20,0) end with a frame that draws exactly the one stroke moveTo (0,0), segments ending at (5,0) and (15,0), lineTo (20,0), in black at width 10 with round cap and join |

## Left out

- Compose layout, the `DrawingPropertiesMenu` toolbar, its toggle buttons, `PropertiesMenuDialog`, the colour dialog and the slider are left out. They are user interface with no logic beyond what the callbacks receive.
- The dialogs assign the current properties object's fields directly; those assignments are not modelled. `PathPropertiesObject` and `OnDrawModeChanged` show the in-place assignment the screen itself does.
- Gesture detection (`dragMotionEvent`), `positionChange()` and `consume()` are library code. A drag's position and change are inputs. A cancelled gesture is not modelled.
- Rasterisation and blending are left out. These include `saveLayer`, `restoreToCount`, how `BlendMode.Clear` clears pixels of the layer and not of the background, and stroke geometry. The frame is modelled as the ordered list of canvas calls. Properties about pixels, and about how results depend on stroke order, are therefore not stated.
- `println`, the unused `canvasText`, `paint` and `LocalContext` are left out because they have no effect on the state.
- Compose recomposition and scheduling are not modelled. A frame is an explicit call after a handler, in a chosen order. The gesture lemmas (`Gestures.Drags`, `Gestures.Gesture`, `Gestures.DrawGestureCommitsSmoothedStroke`) assume exactly one frame after each callback. A frame with no callback before it repeats the Down or Move branch. In the Move phase it adds a segment controlled by the current position and ending there (`Gestures.RepeatedMoveFrame`). Several callbacks before one frame keep only the last (`Gestures.DragStartOverwritten`, `Gestures.LastHandlerWins`).
- Coordinates, widths and alpha are `real` rather than 32-bit floats. Rounding in the midpoint and in translation is not modelled.
- Unspecified positions: a Move frame outside Touch mode reads `previousPosition.x` and `.y` (:146-150). When a drag start and a drag both arrive before one frame, on the first gesture or after any Up frame (:177-178), that position is still `Offset.Unspecified` (`Gestures.DragStartOverwritten` reaches this state). Depending on the Compose version, that read throws `IllegalStateException` or yields NaN coordinates. The model records `QuadraticBezierTo(Unspecified, Unspecified)` instead and does not model the failure. A path command at an unspecified point is kept as such, not rendered.
- Geometry.Midpoint: states equidistance and unspecified propagation, not float rounding of `(a + b) / 2`.
- `Path` objects are modelled as command lists plus an identity number. Object identity is captured only through that number. Committed properties are snapshots taken at commit. This is exact because the screen replaces its properties object right after each commit and never changes a committed one.
- `onPathPropertiesChange` is modelled as the screen defines it; the menu never invokes it, and that wiring is not modelled.
