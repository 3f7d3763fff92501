/** Coordinates of the 8x8 board, the eight compass directions and the
    cells that a walk from a cell in one direction visits. */
module Geometry {

  /** A cell coordinate: x is the row, y the column, both 0-based. */
  datatype Point = Point(x: int, y: int)

  function Add(p: Point, q: Point): Point {
    Point(p.x + q.x, p.y + q.y)
  }

  /** The eight offsets around a cell, in the order the board walks them. */
  const DIRECTIONS: seq<Point> := [
    Point(-1, -1), Point(-1, 0), Point(-1, 1),
    Point(0, -1), Point(0, 1),
    Point(1, -1), Point(1, 0), Point(1, 1)
  ]

  predicate IsDirection(d: Point) {
    -1 <= d.x <= 1 && -1 <= d.y <= 1 && d != Point(0, 0)
  }

  function Dir(k: int): (d: Point)
    requires 0 <= k < 8
    ensures IsDirection(d)
  {
    DIRECTIONS[k]
  }

  /** The eight entries of DIRECTIONS are exactly the eight unit offsets. */
  lemma DirectionsComplete(d: Point)
    requires IsDirection(d)
    ensures exists k :: 0 <= k < 8 && Dir(k) == d
  {
    var k := 3 * (d.x + 1) + (d.y + 1);
    var j := if k < 4 then k else k - 1;
    assert Dir(j) == d;
  }

  predicate OnBoard(p: Point) {
    0 <= p.x < 8 && 0 <= p.y < 8
  }

  /** Position of a cell in the row-major 64-cell grid. */
  function Idx(p: Point): (i: nat)
    requires OnBoard(p)
    ensures i < 64
  {
    p.x * 8 + p.y
  }

  /** The cell stored at position i of the row-major grid. */
  function PointAt(i: int): (p: Point)
    requires 0 <= i < 64
    ensures OnBoard(p) && Idx(p) == i
  {
    Point(i / 8, i % 8)
  }

  lemma IdxInjective(p: Point, q: Point)
    requires OnBoard(p) && OnBoard(q) && Idx(p) == Idx(q)
    ensures p == q
  {
  }

  /** j * c for a direction component c in {-1, 0, 1}, kept linear. */
  function Scale(j: int, c: int): int {
    if c == 1 then j else if c == -1 then -j else 0
  }

  /** The cell j steps from q in direction d. */
  function Ray(q: Point, d: Point, j: int): Point {
    Point(q.x + Scale(j, d.x), q.y + Scale(j, d.y))
  }

  /** Number of cells a walk from p in direction d visits before it leaves the board. */
  function Span(p: Point, d: Point): nat {
    if !OnBoard(p) then 0
    else 1 + (if d.x > 0 then 7 - p.x else if d.x < 0 then p.x else 0)
           + (if d.y > 0 then 7 - p.y else if d.y < 0 then p.y else 0)
  }

  lemma SpanDecreases(p: Point, d: Point)
    requires IsDirection(d) && OnBoard(p)
    ensures Span(Add(p, d), d) < Span(p, d)
  {
  }

  lemma RayStep(q: Point, d: Point, j: int)
    requires IsDirection(d)
    ensures Ray(Add(q, d), d, j) == Ray(q, d, j + 1)
    ensures Ray(q, d, 0) == q && Ray(q, d, 1) == Add(q, d)
  {
  }

  /** Every ray from the neighbour of q is the ray from q one step further. */
  lemma RayNext(q: Point, d: Point)
    requires IsDirection(d)
    ensures forall j :: Ray(Add(q, d), d, j) == Ray(q, d, j + 1)
    ensures Ray(q, d, 0) == q
  {
  }

  /** a steps then b steps along d is a + b steps. */
  lemma RayShift(c: Point, d: Point, a: int, b: int)
    requires IsDirection(d)
    ensures Ray(Ray(c, d, a), d, b) == Ray(c, d, a + b)
  {
  }

  /** The eight directions are pairwise different. */
  lemma DirInjective(k: int, j: int)
    requires 0 <= k < 8 && 0 <= j < 8 && Dir(k) == Dir(j)
    ensures k == j
  {
  }

  /** Two different steps along one direction reach two different cells. */
  lemma RayInjective(q: Point, d: Point, i: int, j: int)
    requires IsDirection(d) && Ray(q, d, i) == Ray(q, d, j)
    ensures i == j
  {
  }

  /** Rays leaving one cell in two different directions never meet again. */
  lemma RaysDisjoint(c: Point, d1: Point, d2: Point, i: int, j: int)
    requires IsDirection(d1) && IsDirection(d2)
    requires i >= 1 && j >= 1 && Ray(c, d1, i) == Ray(c, d2, j)
    ensures d1 == d2 && i == j
  {
  }
}
