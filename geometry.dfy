/** Points on the drawing surface and the displacement of a drag. Coordinates are
    exact reals, so that midpoints and translations obey their algebraic laws. */
module Geometry {

  /** A position on the surface, or the "unspecified" position the screen holds
      between strokes. A point computed from an unspecified position is taken to
      be unspecified as well. */
  datatype Offset = Offset(x: real, y: real) | Unspecified

  /** The displacement reported by a pointer change since its previous sample. */
  datatype Delta = Delta(dx: real, dy: real) {

    function Negated(): (r: Delta)
      ensures Plus(r) == Zero
    {
      Delta(-dx, -dy)
    }

    function Plus(other: Delta): Delta
    {
      Delta(dx + other.dx, dy + other.dy)
    }
  }

  const Zero := Delta(0.0, 0.0)

  /** Shifts a position by a displacement; an unspecified position stays unspecified. */
  function Translate(p: Offset, d: Delta): (r: Offset)
    ensures r.Unspecified? <==> p.Unspecified?
    ensures p.Offset? ==> r.x - p.x == d.dx && r.y - p.y == d.dy
  {
    match p
    case Offset(x, y) => Offset(x + d.dx, y + d.dy)
    case Unspecified => Unspecified
  }

  /** The point halfway between two positions: `(a + b) / 2` coordinate-wise. */
  function Midpoint(a: Offset, b: Offset): (r: Offset)
    ensures r.Unspecified? <==> a.Unspecified? || b.Unspecified?
    ensures r.Offset? ==> r.x - a.x == b.x - r.x && r.y - a.y == b.y - r.y
  {
    if a.Offset? && b.Offset? then Offset((a.x + b.x) / 2.0, (a.y + b.y) / 2.0)
    else Unspecified
  }

  /** Translating by `d` and then by `-d` gives back the original position. */
  lemma TranslateInverse(p: Offset, d: Delta)
    ensures Translate(Translate(p, d), d.Negated()) == p
  {
  }

  /** Two translations in a row are one translation by the summed displacement. */
  lemma TranslateCompose(p: Offset, a: Delta, b: Delta)
    ensures Translate(Translate(p, a), b) == Translate(p, a.Plus(b))
  {
  }

  lemma TranslateZero(p: Offset)
    ensures Translate(p, Zero) == p
  {
  }
}
