/** A vector path as the ordered list of commands issued to it. */
module Paths {
  import opened Geometry

  datatype PathCommand =
    | MoveTo(p: Offset)
    | QuadraticBezierTo(control: Offset, end: Offset)
    | LineTo(p: Offset)

  type Path = seq<PathCommand>

  function TranslateCommand(c: PathCommand, d: Delta): PathCommand
  {
    match c
    case MoveTo(p) => MoveTo(Translate(p, d))
    case QuadraticBezierTo(control, end) => QuadraticBezierTo(Translate(control, d), Translate(end, d))
    case LineTo(p) => LineTo(Translate(p, d))
  }

  /** `Path.translate`: every command of the path is shifted by `d`; the commands
      stay in order and keep their kind. */
  function TranslatePath(path: Path, d: Delta): (r: Path)
    ensures |r| == |path|
    ensures forall i :: 0 <= i < |path| ==> r[i] == TranslateCommand(path[i], d)
  {
    seq(|path|, i requires 0 <= i < |path| => TranslateCommand(path[i], d))
  }

  lemma TranslateCommandInverse(c: PathCommand, d: Delta)
    ensures TranslateCommand(TranslateCommand(c, d), d.Negated()) == c
  {
    match c
    case MoveTo(p) => TranslateInverse(p, d);
    case QuadraticBezierTo(control, end) => TranslateInverse(control, d); TranslateInverse(end, d);
    case LineTo(p) => TranslateInverse(p, d);
  }

  /** Panning by `d` and then by `-d` restores every coordinate of the path. */
  lemma TranslatePathInverse(path: Path, d: Delta)
    ensures TranslatePath(TranslatePath(path, d), d.Negated()) == path
  {
    forall i | 0 <= i < |path| ensures TranslatePath(TranslatePath(path, d), d.Negated())[i] == path[i] {
      TranslateCommandInverse(path[i], d);
    }
  }

  lemma TranslateCommandCompose(c: PathCommand, a: Delta, b: Delta)
    ensures TranslateCommand(TranslateCommand(c, a), b) == TranslateCommand(c, a.Plus(b))
  {
    match c
    case MoveTo(p) => TranslateCompose(p, a, b);
    case QuadraticBezierTo(control, end) => TranslateCompose(control, a, b); TranslateCompose(end, a, b);
    case LineTo(p) => TranslateCompose(p, a, b);
  }

  /** Two pans in a row are one pan by the summed displacement. */
  lemma TranslatePathCompose(path: Path, a: Delta, b: Delta)
    ensures TranslatePath(TranslatePath(path, a), b) == TranslatePath(path, a.Plus(b))
  {
    forall i | 0 <= i < |path|
      ensures TranslatePath(TranslatePath(path, a), b)[i] == TranslatePath(path, a.Plus(b))[i]
    {
      TranslateCommandCompose(path[i], a, b);
    }
  }

  lemma TranslatePathZero(path: Path)
    ensures TranslatePath(path, Zero) == path
  {
    forall i | 0 <= i < |path| ensures TranslatePath(path, Zero)[i] == path[i] {
      match path[i]
      case MoveTo(p) => TranslateZero(p);
      case QuadraticBezierTo(control, end) => TranslateZero(control); TranslateZero(end);
      case LineTo(p) => TranslateZero(p);
    }
  }
}
