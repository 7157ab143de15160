/** The render style of a stroke (`PathProperties`) and the small value operations on it. */
module Properties {

  /** An RGBA colour with components in [0, 1]. */
  datatype Color = Color(red: real, green: real, blue: real, alpha: real)

  const Black := Color(0.0, 0.0, 0.0, 1.0)
  const Transparent := Color(0.0, 0.0, 0.0, 0.0)

  datatype StrokeCap = Butt | Round | Square

  datatype StrokeJoin = Miter | Round | Bevel

  /** `PathProperties()` with no arguments is the default style: width 10, black,
      opaque, round cap, round join, not erasing. */
  datatype PathProperties = PathProperties(
    strokeWidth: real := 10.0,
    color: Color := Black,
    alpha: real := 1.0,
    strokeCap: StrokeCap := StrokeCap.Round,
    strokeJoin: StrokeJoin := StrokeJoin.Round,
    eraseMode: bool := false)
  {
    /** Agreement on every field a new stroke inherits: all but `alpha`. */
    predicate SameStyle(other: PathProperties)
    {
      && strokeWidth == other.strokeWidth
      && color == other.color
      && strokeCap == other.strokeCap
      && strokeJoin == other.strokeJoin
      && eraseMode == other.eraseMode
    }

    /** `copy`: a new properties value, each field taken from the argument given for
        it and otherwise from this one. */
    function Copy(
      strokeWidth: real := this.strokeWidth,
      color: Color := this.color,
      alpha: real := this.alpha,
      strokeCap: StrokeCap := this.strokeCap,
      strokeJoin: StrokeJoin := this.strokeJoin,
      eraseMode: bool := this.eraseMode): (r: PathProperties)
      ensures r.strokeWidth == strokeWidth && r.color == color && r.alpha == alpha
      ensures r.strokeCap == strokeCap && r.strokeJoin == strokeJoin && r.eraseMode == eraseMode
    {
      PathProperties(strokeWidth, color, alpha, strokeCap, strokeJoin, eraseMode)
    }

    /** `copyFrom`: this value after taking over the style of `properties`. It keeps
        its own `alpha`, which `copyFrom` does not assign. */
    function CopyFrom(properties: PathProperties): (r: PathProperties)
      ensures r.SameStyle(properties) && r.alpha == alpha
      ensures r == this <==> SameStyle(properties)
    {
      this.(strokeWidth := properties.strokeWidth, color := properties.color,
            strokeCap := properties.strokeCap, strokeJoin := properties.strokeJoin,
            eraseMode := properties.eraseMode)
    }
  }

  /** A `PathProperties` object, whose fields the screen and its dialogs assign in
      place. `Value()` is what it holds now. */
  class PathPropertiesObject {
    var strokeWidth: real
    var color: Color
    var alpha: real
    var strokeCap: StrokeCap
    var strokeJoin: StrokeJoin
    var eraseMode: bool

    function Value(): PathProperties
      reads this
    {
      PathProperties(strokeWidth, color, alpha, strokeCap, strokeJoin, eraseMode)
    }

    /** A new object; an argument left out takes its default. */
    constructor (
      strokeWidth: real := 10.0,
      color: Color := Black,
      alpha: real := 1.0,
      strokeCap: StrokeCap := StrokeCap.Round,
      strokeJoin: StrokeJoin := StrokeJoin.Round,
      eraseMode: bool := false)
      ensures Value() == PathProperties(strokeWidth, color, alpha, strokeCap, strokeJoin, eraseMode)
    {
      this.strokeWidth := strokeWidth;
      this.color := color;
      this.alpha := alpha;
      this.strokeCap := strokeCap;
      this.strokeJoin := strokeJoin;
      this.eraseMode := eraseMode;
    }

    /** `copyFrom`: every field but `alpha` is assigned from `properties`, which may
        be this object itself. */
    method CopyFrom(properties: PathPropertiesObject)
      modifies this
      ensures Value() == old(Value()).CopyFrom(old(properties.Value()))
    {
      strokeWidth := properties.strokeWidth;
      color := properties.color;
      strokeCap := properties.strokeCap;
      strokeJoin := properties.strokeJoin;
      eraseMode := properties.eraseMode;
    }
  }

  /** The properties the screen builds for the next stroke once one is committed: a
      new object from the committed one's width, colour, cap, join and erase flag,
      which leaves `alpha` at its default. */
  function NextStrokeProperties(committed: PathProperties): (r: PathProperties)
    ensures r.SameStyle(committed) && r.alpha == PathProperties().alpha
  {
    PathProperties(
      strokeWidth := committed.strokeWidth,
      color := committed.color,
      strokeCap := committed.strokeCap,
      strokeJoin := committed.strokeJoin,
      eraseMode := committed.eraseMode)
  }

  /** The next stroke's properties are the defaults after `copyFrom` of the committed
      stroke's: building them field by field and copying onto a default object agree. */
  lemma NextStrokeIsCopyFromDefault(committed: PathProperties)
    ensures NextStrokeProperties(committed) == PathProperties().CopyFrom(committed)
  {
  }

  /** `copyFrom` onto a value is the `copy` of that value with the other's style
      passed for every field but `alpha`. */
  lemma CopyFromIsCopy(p: PathProperties, q: PathProperties)
    ensures p.CopyFrom(q) == p.Copy(strokeWidth := q.strokeWidth, color := q.color, strokeCap := q.strokeCap,
                                    strokeJoin := q.strokeJoin, eraseMode := q.eraseMode)
  {
  }

  /** A `copy` with no arguments has every field of the original. */
  lemma CopyWithoutArguments(p: PathProperties)
    ensures p.Copy() == p
  {
  }

  /** `copyFrom` is idempotent, and only the last source matters. */
  lemma CopyFromTwice(p: PathProperties, a: PathProperties, b: PathProperties)
    ensures p.CopyFrom(a).CopyFrom(b) == p.CopyFrom(b)
    ensures p.CopyFrom(a).CopyFrom(a) == p.CopyFrom(a)
  {
  }

  /** Index of a cap in the stroke-cap selection menu: Butt 0, Round 1, otherwise 2. */
  function CapIndex(cap: StrokeCap): (i: int)
    ensures 0 <= i <= 2
    ensures (i == 0 <==> cap == Butt) && (i == 1 <==> cap == StrokeCap.Round) && (i == 2 <==> cap == Square)
  {
    match cap
    case Butt => 0
    case Round => 1
    case _ => 2
  }

  /** The cap chosen by a menu index: 0 Butt, 1 Round, anything else Square. It is the
      inverse of `CapIndex` on the menu's indices. */
  function CapAt(index: int): (cap: StrokeCap)
    ensures CapIndex(cap) == (if 0 <= index <= 1 then index else 2)
  {
    if index == 0 then StrokeCap.Butt
    else if index == 1 then StrokeCap.Round
    else StrokeCap.Square
  }

  /** Index of a join in the stroke-join selection menu: Miter 0, Round 1, otherwise 2. */
  function JoinIndex(join: StrokeJoin): (i: int)
    ensures 0 <= i <= 2
    ensures (i == 0 <==> join == Miter) && (i == 1 <==> join == StrokeJoin.Round) && (i == 2 <==> join == Bevel)
  {
    match join
    case Miter => 0
    case Round => 1
    case _ => 2
  }

  /** The join chosen by a menu index: 0 Miter, 1 Round, anything else Bevel. */
  function JoinAt(index: int): (join: StrokeJoin)
    ensures JoinIndex(join) == (if 0 <= index <= 1 then index else 2)
  {
    if index == 0 then StrokeJoin.Miter
    else if index == 1 then StrokeJoin.Round
    else StrokeJoin.Bevel
  }

  /** Reading a selection back from the menu index it is shown at gives the same
      cap and join. */
  lemma MenuIndexRoundTrip(cap: StrokeCap, join: StrokeJoin)
    ensures CapAt(CapIndex(cap)) == cap
    ensures JoinAt(JoinIndex(join)) == join
  {
  }
}
