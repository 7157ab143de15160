/** The committed strokes and the redo stack of the drawing screen (`paths` and
    `pathsUndone`), with the moves between them. */
module StrokeHistory {
  import opened Geometry
  import opened Paths
  import opened Properties

  /** A committed `(path, properties)` pair. `id` stands for the identity of the
      path object: every stroke committed gets the object the screen was drawing
      into, and the screen then starts a new one. */
  datatype Stroke = Stroke(id: nat, path: Path, properties: PathProperties)

  /** `paths` is in draw order, oldest first; the top of `pathsUndone` is its last
      element. */
  datatype History = History(paths: seq<Stroke>, pathsUndone: seq<Stroke>)
  {
    function All(): seq<Stroke>
    {
      paths + pathsUndone
    }
  }

  /** No two strokes share a path object. */
  predicate Distinct(strokes: seq<Stroke>)
  {
    forall i, j :: 0 <= i < j < |strokes| ==> strokes[i].id != strokes[j].id
  }

  predicate Disjoint(a: seq<Stroke>, b: seq<Stroke>)
  {
    forall i, j :: 0 <= i < |a| && 0 <= j < |b| ==> a[i].id != b[j].id
  }

  /** The history's invariant: every path object is in at most one place. */
  predicate WellFormed(h: History)
  {
    Distinct(h.paths) && Distinct(h.pathsUndone) && Disjoint(h.paths, h.pathsUndone)
  }

  /** The position `MutableList.remove` searches for: the first index holding `x`. */
  function FirstIndex<T(==)>(s: seq<T>, x: T): (i: nat)
    requires x in s
    ensures i < |s| && s[i] == x && x !in s[..i]
  {
    if s[0] == x then 0
    else
      var j := FirstIndex(s[1..], x);
      assert s[..j + 1] == [s[0]] + s[1..][..j];
      j + 1
  }

  /** `MutableList.remove(x)`: the first element equal to `x` is taken out and the
      others keep their order; a list without `x` is returned as it is. */
  function RemoveFirst<T(==)>(s: seq<T>, x: T): (r: seq<T>)
    ensures x in s ==> |r| == |s| - 1 && multiset(r) == multiset(s) - multiset{x}
    ensures x in s ==> exists i :: 0 <= i < |s| && s[i] == x && x !in s[..i] && r == s[..i] + s[i + 1..]
    ensures x !in s ==> r == s
  {
    if x in s then
      var i := FirstIndex(s, x);
      assert s == s[..i] + [x] + s[i + 1..];
      s[..i] + s[i + 1..]
    else s
  }

  /** Removing the first element equal to the last one removes the last one, when
      it occurs nowhere else. */
  lemma RemoveFirstOfLast<T>(s: seq<T>)
    requires |s| > 0 && s[|s| - 1] !in s[..|s| - 1]
    ensures RemoveFirst(s, s[|s| - 1]) == s[..|s| - 1]
  {
    var n := |s|;
    var i := FirstIndex(s, s[n - 1]);
    assert s[i + 1..] == [];
  }

  /** Under `Distinct`, the last committed stroke occurs only at the end. */
  lemma LastStrokeUnique(strokes: seq<Stroke>)
    requires Distinct(strokes) && |strokes| > 0
    ensures strokes[|strokes| - 1] !in strokes[..|strokes| - 1]
  {
    var n := |strokes|;
    var front := strokes[..n - 1];
    forall k | 0 <= k < |front| ensures front[k] != strokes[n - 1] {
      assert strokes[k].id != strokes[n - 1].id;
    }
  }

  /** The screen's undo: the last committed stroke goes on top of the redo stack;
      with nothing committed nothing changes. */
  function Undo(h: History): (r: History)
    ensures h.paths != [] ==> r.paths + [h.paths[|h.paths| - 1]] == h.paths
    ensures h.paths != [] ==> r.pathsUndone == h.pathsUndone + [h.paths[|h.paths| - 1]]
    ensures h.paths == [] ==> r == h
    ensures |r.paths| + |r.pathsUndone| == |h.paths| + |h.pathsUndone|
  {
    if h.paths == [] then h
    else
      var n := |h.paths|;
      assert h.paths[..n - 1] + [h.paths[n - 1]] == h.paths;
      History(h.paths[..n - 1], h.pathsUndone + [h.paths[n - 1]])
  }

  /** The screen's redo: the top of the redo stack is committed again; with an
      empty redo stack nothing changes. */
  function Redo(h: History): (r: History)
    ensures h.pathsUndone != [] ==> r.pathsUndone + [h.pathsUndone[|h.pathsUndone| - 1]] == h.pathsUndone
    ensures h.pathsUndone != [] ==> r.paths == h.paths + [h.pathsUndone[|h.pathsUndone| - 1]]
    ensures h.pathsUndone == [] ==> r == h
    ensures |r.paths| + |r.pathsUndone| == |h.paths| + |h.pathsUndone|
  {
    if h.pathsUndone == [] then h
    else
      var n := |h.pathsUndone|;
      assert h.pathsUndone[..n - 1] + [h.pathsUndone[n - 1]] == h.pathsUndone;
      History(h.paths + [h.pathsUndone[n - 1]], h.pathsUndone[..n - 1])
  }

  /** Committing a stroke appends it and invalidates the redo stack. */
  function Commit(h: History, stroke: Stroke): (r: History)
    ensures |r.paths| == |h.paths| + 1 && r.paths[..|h.paths|] == h.paths && r.paths[|h.paths|] == stroke
    ensures Redo(r) == r
  {
    History(h.paths + [stroke], [])
  }

  /** The end of a stroke in any mode empties the redo stack. */
  function ClearRedo(h: History): (r: History)
    ensures r.paths == h.paths && r.pathsUndone == []
    ensures Redo(r) == r
  {
    History(h.paths, [])
  }

  /** An undo is reverted by a redo. */
  lemma RedoUndo(h: History)
    requires h.paths != []
    ensures Redo(Undo(h)) == h
  {
  }

  /** A redo is reverted by an undo. */
  lemma UndoRedo(h: History)
    requires h.pathsUndone != []
    ensures Undo(Redo(h)) == h
  {
  }

  /** Undo only moves a stroke between the two lists: none is lost, duplicated or
      created, and every path object stays in one place. */
  lemma UndoPreservesWellFormed(h: History)
    requires WellFormed(h)
    ensures WellFormed(Undo(h)) && multiset(Undo(h).All()) == multiset(h.All())
  {
    if h.paths != [] {
      var n := |h.paths|;
      var p, x := h.paths[..n - 1], h.paths[n - 1];
      assert h.paths == p + [x];
      var u := h.pathsUndone + [x];
      forall i, j | 0 <= i < j < |u| ensures u[i].id != u[j].id {
        if j == |h.pathsUndone| {
          assert h.paths[n - 1] == x;
        }
      }
      forall i, j | 0 <= i < |p| && 0 <= j < |u| ensures p[i].id != u[j].id {
        assert p[i] == h.paths[i];
      }
      assert Undo(h).All() == p + u;
    }
  }

  /** Redo only moves a stroke between the two lists, as undo does. */
  lemma RedoPreservesWellFormed(h: History)
    requires WellFormed(h)
    ensures WellFormed(Redo(h)) && multiset(Redo(h).All()) == multiset(h.All())
  {
    if h.pathsUndone != [] {
      var n := |h.pathsUndone|;
      var u, x := h.pathsUndone[..n - 1], h.pathsUndone[n - 1];
      assert h.pathsUndone == u + [x];
      var p := h.paths + [x];
      forall i, j | 0 <= i < j < |p| ensures p[i].id != p[j].id {
        if j == |h.paths| {
          assert h.pathsUndone[n - 1] == x;
        }
      }
      forall i, j | 0 <= i < |p| && 0 <= j < |u| ensures p[i].id != u[j].id {
        assert u[j] == h.pathsUndone[j];
      }
      assert Redo(h).All() == p + u;
    }
  }

  /** Every stroke of the list has an identity below `n`. */
  predicate IdsBelow(strokes: seq<Stroke>, n: nat)
  {
    forall i :: 0 <= i < |strokes| ==> strokes[i].id < n
  }

  /** Every path object in the history was created before the one numbered `n`. */
  predicate IssuedBefore(h: History, n: nat)
  {
    IdsBelow(h.paths, n) && IdsBelow(h.pathsUndone, n)
  }

  lemma UndoKeepsIssued(h: History, n: nat)
    requires IssuedBefore(h, n)
    ensures IssuedBefore(Undo(h), n)
  {
    if h.paths != [] {
      var m := |h.paths|;
      assert Undo(h).paths == h.paths[..m - 1];
      assert Undo(h).pathsUndone == h.pathsUndone + [h.paths[m - 1]];
    }
  }

  lemma RedoKeepsIssued(h: History, n: nat)
    requires IssuedBefore(h, n)
    ensures IssuedBefore(Redo(h), n)
  {
    if h.pathsUndone != [] {
      var m := |h.pathsUndone|;
      assert Redo(h).pathsUndone == h.pathsUndone[..m - 1];
      assert Redo(h).paths == h.paths + [h.pathsUndone[m - 1]];
    }
  }

  /** `k` undos in a row. */
  function UndoTimes(k: nat, h: History): History
  {
    if k == 0 then h else Undo(UndoTimes(k - 1, h))
  }

  /** `k` redos in a row. */
  function RedoTimes(k: nat, h: History): History
  {
    if k == 0 then h else RedoTimes(k - 1, Redo(h))
  }

  function Reversed<T>(s: seq<T>): (r: seq<T>)
    ensures |r| == |s|
  {
    if s == [] then [] else Reversed(s[1..]) + [s[0]]
  }

  /** After `k` undos of a history with at least `k` strokes, the last `k` strokes
      sit on the redo stack in reverse order, the most recently drawn one deepest
      and the oldest of them on top. */
  lemma {:induction false} UndoTimesShape(k: nat, h: History)
    requires k <= |h.paths|
    ensures UndoTimes(k, h).paths == h.paths[..|h.paths| - k]
    ensures UndoTimes(k, h).pathsUndone == h.pathsUndone + Reversed(h.paths[|h.paths| - k..])
  {
    var n := |h.paths|;
    if k > 0 {
      UndoTimesShape(k - 1, h);
      UndoTimesShapeStep(k, h);
    } else {
      assert h.paths[n..] == [];
    }
  }

  /** One more undo extends the shape of `k - 1` undos to `k`. */
  lemma UndoTimesShapeStep(k: nat, h: History)
    requires 0 < k <= |h.paths|
    requires UndoTimes(k - 1, h).paths == h.paths[..|h.paths| - k + 1]
    requires UndoTimes(k - 1, h).pathsUndone == h.pathsUndone + Reversed(h.paths[|h.paths| - k + 1..])
    ensures UndoTimes(k, h).paths == h.paths[..|h.paths| - k]
    ensures UndoTimes(k, h).pathsUndone == h.pathsUndone + Reversed(h.paths[|h.paths| - k..])
  {
    var n := |h.paths|;
    var prev := UndoTimes(k - 1, h);
    var kept, x, moved := h.paths[..n - k], h.paths[n - k], h.paths[n - k + 1..];
    assert prev.paths == kept + [x];
    UndoLast(prev, kept, x);
    ReversedCons(h.paths[n - k..], x, moved);
  }

  lemma UndoLast(h: History, kept: seq<Stroke>, x: Stroke)
    requires h.paths == kept + [x]
    ensures Undo(h) == History(kept, h.pathsUndone + [x])
  {
    assert h.paths[..|h.paths| - 1] == kept;
  }

  lemma ReversedCons<T>(s: seq<T>, x: T, rest: seq<T>)
    requires s == [x] + rest
    ensures Reversed(s) == Reversed(rest) + [x]
  {
    assert s[1..] == rest;
  }

  /** Undoing every stroke empties the committed list. */
  lemma UndoAllEmpties(h: History)
    ensures UndoTimes(|h.paths|, h).paths == []
    ensures |UndoTimes(|h.paths|, h).pathsUndone| == |h.paths| + |h.pathsUndone|
  {
    UndoTimesShape(|h.paths|, h);
  }

  /** `k` undos followed by `k` redos restore both lists exactly, in their
      original order. */
  lemma {:induction false} UndoTimesThenRedoTimes(k: nat, h: History)
    requires k <= |h.paths|
    ensures RedoTimes(k, UndoTimes(k, h)) == h
  {
    if k > 0 {
      UndoTimesShape(k - 1, h);
      RedoUndo(UndoTimes(k - 1, h));
      UndoTimesThenRedoTimes(k - 1, h);
    }
  }

  /** A new commit after any number of undos leaves nothing to redo: any number of
      redos after it changes nothing. */
  lemma CommitInvalidatesRedo(j: nat, k: nat, h: History, stroke: Stroke)
    ensures RedoTimes(j, Commit(UndoTimes(k, h), stroke)) == Commit(UndoTimes(k, h), stroke)
  {
    RedoTimesAfterNoRedo(j, Commit(UndoTimes(k, h), stroke));
  }

  lemma {:induction false} RedoTimesAfterNoRedo(k: nat, h: History)
    requires h.pathsUndone == []
    ensures RedoTimes(k, h) == h
  {
    if k > 0 {
      RedoTimesAfterNoRedo(k - 1, Redo(h));
    }
  }

  /** Every stroke shifted by `d`; identity and properties are kept. This is the
      touch-mode pan applied to the committed list. */
  function TranslateStrokes(strokes: seq<Stroke>, d: Delta): (r: seq<Stroke>)
    ensures |r| == |strokes|
    ensures forall i :: 0 <= i < |strokes| ==>
      r[i].id == strokes[i].id && r[i].properties == strokes[i].properties
      && r[i].path == TranslatePath(strokes[i].path, d)
  {
    seq(|strokes|, i requires 0 <= i < |strokes| => strokes[i].(path := TranslatePath(strokes[i].path, d)))
  }

  /** Panning by `d` and then by `-d` restores every committed stroke. */
  lemma TranslateStrokesInverse(strokes: seq<Stroke>, d: Delta)
    ensures TranslateStrokes(TranslateStrokes(strokes, d), d.Negated()) == strokes
  {
    forall i | 0 <= i < |strokes|
      ensures TranslateStrokes(TranslateStrokes(strokes, d), d.Negated())[i] == strokes[i]
    {
      TranslatePathInverse(strokes[i].path, d);
    }
  }

  lemma TranslateStrokesCompose(strokes: seq<Stroke>, a: Delta, b: Delta)
    ensures TranslateStrokes(TranslateStrokes(strokes, a), b) == TranslateStrokes(strokes, a.Plus(b))
  {
    forall i | 0 <= i < |strokes|
      ensures TranslateStrokes(TranslateStrokes(strokes, a), b)[i] == TranslateStrokes(strokes, a.Plus(b))[i]
    {
      TranslatePathCompose(strokes[i].path, a, b);
    }
  }

  lemma TranslateStrokesZero(strokes: seq<Stroke>)
    ensures TranslateStrokes(strokes, Zero) == strokes
  {
    forall i | 0 <= i < |strokes| ensures TranslateStrokes(strokes, Zero)[i] == strokes[i] {
      TranslatePathZero(strokes[i].path);
    }
  }
}
