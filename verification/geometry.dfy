/**
 Point arithmetic and the orientation test of the Voronoi construction.
 Coordinates are exact reals: the sites read by the program are integers, so
 every orientation test on them is decided exactly.
 */
module Geometry {

  /** Tolerance used wherever a boundary decision is made. */
  const PRECISION: real := 0.0000001

  datatype Point = Point(x: real, y: real)

  function Add(a: Point, b: Point): Point
  {
    Point(a.x + b.x, a.y + b.y)
  }

  function Sub(a: Point, b: Point): Point
  {
    Point(a.x - b.x, a.y - b.y)
  }

  /** Multiplication of a point by a scalar. */
  function Scale(k: real, a: Point): Point
  {
    Point(a.x * k, a.y * k)
  }

  /** The cross product a×b, which `Point.__mul__` returns for a point operand. */
  function Cross(a: Point, b: Point): real
  {
    a.x * b.y - a.y * b.x
  }

  /** The dot product a·b. */
  function Dot(a: Point, b: Point): real
  {
    a.x * b.x + a.y * b.y
  }

  /** Signed area (B−A)×(C−A): positive for a left turn, zero when collinear. */
  function Ccw(a: Point, b: Point, c: Point): real
  {
    Cross(Sub(b, a), Sub(c, a))
  }

  /** The site order `Point.__lt__`: x ascending, then y descending. */
  predicate Less(a: Point, b: Point)
  {
    a.x < b.x || (a.x == b.x && a.y > b.y)
  }

  /** `Point.lessThan_yFirst`: y ascending, then x ascending. */
  predicate LessYFirst(a: Point, b: Point)
  {
    a.y < b.y || (a.y == b.y && a.x < b.x)
  }

  /** `Less` is a strict total order on points, with exact equality as its equivalence. */
  lemma LessIsStrictTotalOrder(a: Point, b: Point, c: Point)
    ensures !Less(a, a)
    ensures Less(a, b) ==> !Less(b, a)
    ensures Less(a, b) && Less(b, c) ==> Less(a, c)
    ensures a == b || Less(a, b) || Less(b, a)
  {
  }

  /** `LessYFirst` is a strict total order on points as well. */
  lemma LessYFirstIsStrictTotalOrder(a: Point, b: Point, c: Point)
    ensures !LessYFirst(a, a)
    ensures LessYFirst(a, b) ==> !LessYFirst(b, a)
    ensures LessYFirst(a, b) && LessYFirst(b, c) ==> LessYFirst(a, c)
    ensures a == b || LessYFirst(a, b) || LessYFirst(b, a)
  {
  }

  /** Subtraction undoes addition, addition commutes, and scaling distributes over it. */
  lemma PointArithmeticLaws(a: Point, b: Point, k: real)
    ensures Sub(Add(a, b), b) == a && Add(Sub(a, b), b) == a
    ensures Add(a, b) == Add(b, a)
    ensures Scale(1.0, a) == a
    ensures Scale(k, Add(a, b)) == Add(Scale(k, a), Scale(k, b))
  {
  }

  /** The cross product is antisymmetric and linear in its first argument. */
  lemma CrossLaws(a: Point, b: Point, c: Point, k: real)
    ensures Cross(a, b) == -Cross(b, a) && Cross(a, a) == 0.0
    ensures Cross(Add(a, b), c) == Cross(a, c) + Cross(b, c)
    ensures Cross(Scale(k, a), b) == k * Cross(a, b)
  {
  }

  /** The orientation test changes sign when two of its points are swapped and is
      unchanged by a cyclic rotation; a repeated point makes it zero. */
  lemma CcwSymmetries(a: Point, b: Point, c: Point)
    ensures Ccw(a, c, b) == -Ccw(a, b, c)
    ensures Ccw(b, c, a) == Ccw(a, b, c)
    ensures Ccw(a, b, b) == 0.0 && Ccw(a, a, c) == 0.0
  {
  }
}
