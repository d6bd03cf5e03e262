/** `Point2D`: an integer point of the layout matcher. The mutating
    `moveX`, `moveY` and `copyPosition` return the updated point; Java's
    `int` overflow is written out with `Wrap32`. */
module Point2D {
  import opened Wrappers
  import opened JavaInt
  import opened Strings

  /** The two public `int` fields. */
  datatype Point = Point(x: int, y: int) {
    predicate Valid() {
      IsInt32(x) && IsInt32(y)
    }
  }

  /** The offsets of a `Direction` constant (the enum's values are not part
      of this model). */
  datatype Direction = Direction(dX: int, dY: int)

  /** The no-argument constructor. */
  const ORIGIN: Point := Point(0, 0)

  /** The copy constructor: a point equal to its argument. */
  function Copy(point: Point): (r: Point)
    ensures Equals(r, point)
  {
    Point(point.x, point.y)
  }

  /** `equals`: both coordinates agree. An identical object is the special
      case of equal coordinates, and a non-`Point2D` argument is outside
      this model's types. */
  predicate Equals(p: Point, q: Point) {
    p.x == q.x && p.y == q.y
  }

  /** `equals` coincides with value equality of the two points. */
  lemma EqualsIsValueEquality(p: Point, q: Point)
    ensures Equals(p, q) <==> p == q
  {
  }

  /** `add`: componentwise `int` sum. */
  function Add(p: Point, q: Point): (r: Point)
    requires p.Valid() && q.Valid()
    ensures r.Valid()
    ensures IsInt32(p.x + q.x) && IsInt32(p.y + q.y) ==> r.x == p.x + q.x && r.y == p.y + q.y
  {
    Point(Wrap32(p.x + q.x), Wrap32(p.y + q.y))
  }

  /** `add` does not depend on the order of its operands. */
  lemma AddCommutes(p: Point, q: Point)
    requires p.Valid() && q.Valid()
    ensures Add(p, q) == Add(q, p)
  {
  }

  /** `subtractPoint`: componentwise `int` difference. */
  function Subtract(p: Point, q: Point): (r: Point)
    requires p.Valid() && q.Valid()
    ensures r.Valid()
    ensures IsInt32(p.x - q.x) && IsInt32(p.y - q.y) ==> r.x == p.x - q.x && r.y == p.y - q.y
  {
    Point(Wrap32(p.x - q.x), Wrap32(p.y - q.y))
  }

  /** Subtracting what was added gives the point back, even when the sum
      overflowed. */
  lemma AddThenSubtract(p: Point, q: Point)
    requires p.Valid() && q.Valid()
    ensures Subtract(Add(p, q), q) == p
  {
    var sum := Add(p, q);
    assert sum == Point(Wrap32(p.x + q.x), Wrap32(p.y + q.y));
    Wrap32AddSubtract(p.x, q.x);
    Wrap32AddSubtract(p.y, q.y);
    assert Subtract(sum, q) == Point(Wrap32(sum.x - q.x), Wrap32(sum.y - q.y));
  }

  /** Adding what was subtracted gives the point back. */
  lemma SubtractThenAdd(p: Point, q: Point)
    requires p.Valid() && q.Valid()
    ensures Add(Subtract(p, q), q) == p
  {
    var d := Subtract(p, q);
    assert d == Point(Wrap32(p.x - q.x), Wrap32(p.y - q.y));
    Wrap32SubtractAdd(p.x, q.x);
    Wrap32SubtractAdd(p.y, q.y);
    assert Add(d, q) == Point(Wrap32(d.x + q.x), Wrap32(d.y + q.y));
  }

  /** `getNeighbor`: a new point one step in `direction`; the receiver is a
      value and stays as it is. */
  function Neighbor(p: Point, direction: Direction): (r: Point)
    requires p.Valid() && IsInt32(direction.dX) && IsInt32(direction.dY)
    ensures r == Add(p, Point(direction.dX, direction.dY))
  {
    Point(Wrap32(p.x + direction.dX), Wrap32(p.y + direction.dY))
  }

  /** `moveX`: only x changes. */
  function MoveX(p: Point, diffX: int): (r: Point)
    requires p.Valid() && IsInt32(diffX)
    ensures r.Valid() && r.y == p.y
    ensures r == Add(p, Point(diffX, 0))
  {
    p.(x := Wrap32(p.x + diffX))
  }

  /** `moveY`: only y changes. */
  function MoveY(p: Point, diffY: int): (r: Point)
    requires p.Valid() && IsInt32(diffY)
    ensures r.Valid() && r.x == p.x
    ensures r == Add(p, Point(0, diffY))
  {
    p.(y := Wrap32(p.y + diffY))
  }

  /** Moving along one axis and then the other is the same as moving along
      them in the opposite order, or as one neighbour step. */
  lemma MovesCommute(p: Point, dx: int, dy: int)
    requires p.Valid() && IsInt32(dx) && IsInt32(dy)
    ensures MoveY(MoveX(p, dx), dy) == MoveX(MoveY(p, dy), dx)
    ensures MoveY(MoveX(p, dx), dy) == Neighbor(p, Direction(dx, dy))
  {
    var moved := Point(Wrap32(p.x + dx), Wrap32(p.y + dy));
    var px := MoveX(p, dx);
    var py := MoveY(p, dy);
    assert px == Point(Wrap32(p.x + dx), p.y);
    assert py == Point(p.x, Wrap32(p.y + dy));
    assert MoveY(px, dy) == px.(y := Wrap32(px.y + dy)) == moved;
    assert MoveX(py, dx) == py.(x := Wrap32(py.x + dx)) == moved;
    assert Neighbor(p, Direction(dx, dy)) == moved;
  }

  /** `copyPosition`: the receiver takes the argument's coordinates. */
  function CopyPosition(receiver: Point, point: Point): (r: Point)
    ensures Equals(r, point)
  {
    receiver.(x := point.x, y := point.y)
  }

  /** `toString`: "[x, y]". */
  function ToString(p: Point): (s: string)
    ensures |s| >= 6 && s[0] == '[' && s[|s| - 1] == ']'
  {
    "[" + IntToString(p.x) + ", " + IntToString(p.y) + "]"
  }

  /** Reads "[x, y]" back; the x part ends at the first comma. */
  function ParsePoint(s: string): Option<Point> {
    if |s| < 2 || s[0] != '[' || s[|s| - 1] != ']' then None
    else
      var inner := s[1..|s| - 1];
      var comma := IndexOf(inner, ',');
      if comma < 0 || comma + 2 > |inner| || inner[comma + 1] != ' ' then None
      else
        match (ParseDecimal(inner[..comma]), ParseDecimal(inner[comma + 2..]))
        case (Some(x), Some(y)) => Some(Point(x, y))
        case _ => None
  }

  /** `toString` loses nothing: its output reads back as the same point. */
  lemma ToStringRoundTrip(p: Point)
    ensures ParsePoint(ToString(p)) == Some(p)
  {
    NoCommaInIntString(p.x);
    IntToStringRoundTrip(p.x);
    IntToStringRoundTrip(p.y);
    ParseParts(IntToString(p.x), IntToString(p.y), p.x, p.y);
  }

  /** "[x, y]" reads back from its two parts when the x part has no comma. */
  lemma ParseParts(sx: string, sy: string, x: int, y: int)
    requires ',' !in sx && ParseDecimal(sx) == Some(x) && ParseDecimal(sy) == Some(y)
    ensures ParsePoint("[" + sx + ", " + sy + "]") == Some(Point(x, y))
  {
    var inner := sx + ", " + sy;
    Bracketed(inner);
    assert "[" + sx + ", " + sy + "]" == "[" + inner + "]";
    SplitAtComma(sx, sy);
  }

  /** The text between the brackets of "[inner]". */
  lemma Bracketed(inner: string)
    ensures var s := "[" + inner + "]"; |s| >= 2 && s[1..|s| - 1] == inner
  {
    var s := "[" + inner + "]";
    assert s[1..|s| - 1] == inner;
  }

  lemma NoCommaInIntString(i: int)
    ensures ',' !in IntToString(i)
  {
    var s := IntToString(i);
    forall k | 0 <= k < |s| ensures s[k] != ',' {
      assert s[k] == '-' || IsDigit(s[k]);
    }
  }

  /** "x, y" splits at its first comma when x has none. */
  lemma SplitAtComma(sx: string, sy: string)
    requires ',' !in sx
    ensures var inner := sx + ", " + sy;
            IndexOf(inner, ',') == |sx| && |sx| + 2 <= |inner| && inner[|sx| + 1] == ' '
            && inner[..|sx|] == sx && inner[|sx| + 2..] == sy
  {
    SplitAtFirst(sx, ',', " " + sy);
    assert sx + ", " + sy == sx + [','] + (" " + sy);
    assert (" " + sy)[1..] == sy;
  }
}
