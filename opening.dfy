/** The opening position of reset: where its four discs stand and the four
    cells where BLACK may open. */
module Opening {
  import opened Geometry
  import opened Rules
  import opened Legality

  /** The only WHITE discs of the opening grid are on (3,3) and (4,4), the
      only BLACK ones on (3,4) and (4,3). */
  lemma OpeningDiscs(p: Point)
    ensures IsDiscAt(OpeningGrid(), p, WHITE) <==> p == Point(3, 3) || p == Point(4, 4)
    ensures IsDiscAt(OpeningGrid(), p, BLACK) <==> p == Point(3, 4) || p == Point(4, 3)
  {
  }

  /** In the opening every closed run for BLACK is one WHITE disc long:
      a second WHITE disc on the ray leaves an empty cell behind it. */
  lemma OpeningRunLength(c: Point, d: Point, n: int)
    requires IsDirection(d) && RunClosedAt(OpeningGrid(), c, d, BLACK, n)
    ensures n == 2
    ensures Ray(c, d, 1) == Point(3, 3) || Ray(c, d, 1) == Point(4, 4)
    ensures Ray(c, d, 2) == Point(3, 4) || Ray(c, d, 2) == Point(4, 3)
  {
    OpeningDiscs(Ray(c, d, 1));
    OpeningDiscs(Ray(c, d, 2));
    OpeningDiscs(Ray(c, d, 3));
  }

  /** Hence a run closes only from the four opening spots. */
  lemma OpeningRun(c: Point, d: Point, n: int)
    requires IsDirection(d) && RunClosedAt(OpeningGrid(), c, d, BLACK, n)
    ensures c == Point(2, 3) || c == Point(3, 2) || c == Point(4, 5) || c == Point(5, 4)
  {
    OpeningRunLength(c, d, n);
  }

  /** BLACK may open exactly on (2,3), (3,2), (4,5) and (5,4): each lies one
      step before a WHITE disc that a BLACK disc closes right behind it. */
  lemma OpeningLegal(c: Point)
    requires OnBoard(c)
    ensures Legal(OpeningGrid(), BLACK, c) <==>
      c == Point(2, 3) || c == Point(3, 2) || c == Point(4, 5) || c == Point(5, 4)
  {
    var g := OpeningGrid();
    if Legal(g, BLACK, c) {
      var d, n :| IsDirection(d) && RunClosedAt(g, c, d, BLACK, n);
      OpeningRun(c, d, n);
    }
    if c == Point(2, 3) || c == Point(3, 2) || c == Point(4, 5) || c == Point(5, 4) {
      OpeningSpotLegal(c);
    }
  }

  /** Each of the four spots brackets the WHITE disc next to it against a
      BLACK disc right behind. */
  lemma OpeningSpotLegal(c: Point)
    requires c == Point(2, 3) || c == Point(3, 2) || c == Point(4, 5) || c == Point(5, 4)
    ensures Legal(OpeningGrid(), BLACK, c)
  {
    var g := OpeningGrid();
    if c == Point(2, 3) {
      assert RunClosedAt(g, c, Point(1, 0), BLACK, 2);
    } else if c == Point(3, 2) {
      assert RunClosedAt(g, c, Point(0, 1), BLACK, 2);
    } else if c == Point(4, 5) {
      assert RunClosedAt(g, c, Point(0, -1), BLACK, 2);
    } else if c == Point(5, 4) {
      assert RunClosedAt(g, c, Point(-1, 0), BLACK, 2);
    }
  }

  /** The opening spots among the first n cells, in row-major order. */
  function OpeningSpotsBelow(n: nat): seq<Point> {
    if n <= 19 then []
    else if n <= 26 then [Point(2, 3)]
    else if n <= 37 then [Point(2, 3), Point(3, 2)]
    else if n <= 44 then [Point(2, 3), Point(3, 2), Point(4, 5)]
    else [Point(2, 3), Point(3, 2), Point(4, 5), Point(5, 4)]
  }

  lemma {:induction false} ValidOpeningBelow(n: nat)
    requires n <= 64
    ensures ValidSpotsBelow(OpeningGrid(), BLACK, n) == OpeningSpotsBelow(n)
  {
    if n > 0 {
      ValidOpeningBelow(n - 1);
      var p := PointAt(n - 1);
      IsSpotValidIff(OpeningGrid(), BLACK, p);
      OpeningLegal(p);
    }
  }

  /** reset lists four legal spots for BLACK: (2,3), (3,2), (4,5), (5,4). */
  lemma OpeningSpots()
    ensures OpeningState().spots == [Point(2, 3), Point(3, 2), Point(4, 5), Point(5, 4)]
  {
    ValidOpeningBelow(64);
  }
}
