/** What one frame of the drawing canvas issues to the native canvas, as an ordered
    list of calls. How the calls are rasterised is not modelled. */
module Rendering {
  import opened Paths
  import opened Properties
  import opened StrokeHistory

  datatype BlendMode = SrcOver | Clear

  /** The stroke style of a draw call: width, cap and join. */
  datatype StrokeStyle = StrokeStyle(width: real, cap: StrokeCap, join: StrokeJoin)

  /** One canvas call: open the off-screen layer, stroke a path, or merge the layer
      back. A `DrawPath` without a blend mode argument uses source-over. */
  datatype CanvasOp =
    | SaveLayer
    | DrawPath(path: Path, color: Color, style: StrokeStyle, blendMode: BlendMode)
    | RestoreToCount

  function StyleOf(p: PathProperties): StrokeStyle
  {
    StrokeStyle(p.strokeWidth, p.strokeCap, p.strokeJoin)
  }

  /** The call that strokes one path: an erasing stroke clears its footprint with a
      transparent colour, any other stroke paints in its colour. Both use the
      stroke's width, cap and join; `alpha` plays no part. */
  function PathOp(path: Path, p: PathProperties): (op: CanvasOp)
    ensures op.DrawPath? && op.path == path && op.style == StyleOf(p)
    ensures op.blendMode == Clear <==> p.eraseMode
    ensures op.color == if p.eraseMode then Transparent else p.color
  {
    if !p.eraseMode then DrawPath(path, p.color, StyleOf(p), SrcOver)
    else DrawPath(path, Transparent, StyleOf(p), Clear)
  }

  /** The `forEach` over the committed strokes: one call per stroke, in list order. */
  function StrokeOps(strokes: seq<Stroke>): (ops: seq<CanvasOp>)
    ensures |ops| == |strokes|
    ensures forall i :: 0 <= i < |strokes| ==> ops[i] == PathOp(strokes[i].path, strokes[i].properties)
  {
    if strokes == [] then []
    else
      var n := |strokes|;
      StrokeOps(strokes[..n - 1]) + [PathOp(strokes[n - 1].path, strokes[n - 1].properties)]
  }

  /** The calls of one frame: the layer is opened, every committed stroke is drawn
      in order, then the in-progress stroke when there is one, and the layer is
      merged. Every draw call, and so every clearing one, lies inside the layer. */
  function FrameOps(paths: seq<Stroke>, inProgress: bool, currentPath: Path, current: PathProperties)
    : (ops: seq<CanvasOp>)
    ensures |ops| == |paths| + 2 + (if inProgress then 1 else 0)
    ensures ops[0] == SaveLayer && ops[|ops| - 1] == RestoreToCount
    ensures forall i :: 0 < i < |ops| - 1 ==> ops[i].DrawPath?
    ensures forall i :: 0 <= i < |paths| ==> ops[i + 1] == PathOp(paths[i].path, paths[i].properties)
    ensures inProgress ==> ops[|paths| + 1] == PathOp(currentPath, current)
  {
    [SaveLayer] + StrokeOps(paths)
    + (if inProgress then [PathOp(currentPath, current)] else [])
    + [RestoreToCount]
  }

  /** A stroke appended to the list adds exactly its own call at the end of the
      committed part; the calls for the earlier strokes are unchanged. */
  lemma StrokeOpsAppend(strokes: seq<Stroke>, s: Stroke)
    ensures StrokeOps(strokes + [s]) == StrokeOps(strokes) + [PathOp(s.path, s.properties)]
  {
    assert (strokes + [s])[..|strokes|] == strokes;
  }

  /** One more committed stroke adds exactly its call, right after the calls of the
      strokes before it; the frame's other calls stay as they were, in order. */
  lemma FrameOpsAppend(paths: seq<Stroke>, s: Stroke, inProgress: bool, currentPath: Path,
                       current: PathProperties)
    ensures var before, after := FrameOps(paths, inProgress, currentPath, current),
                                 FrameOps(paths + [s], inProgress, currentPath, current);
      after == before[..|paths| + 1] + [PathOp(s.path, s.properties)] + before[|paths| + 1..]
  {
    var tail := (if inProgress then [PathOp(currentPath, current)] else []) + [RestoreToCount];
    var front := [SaveLayer] + StrokeOps(paths);
    StrokeOpsAppend(paths, s);
    assert FrameOps(paths, inProgress, currentPath, current) == front + tail;
    assert FrameOps(paths + [s], inProgress, currentPath, current) == front + [PathOp(s.path, s.properties)] + tail;
    assert (front + tail)[..|front|] == front;
    assert (front + tail)[|front|..] == tail;
  }
}
