/** What a legal put_disc does to the grid, stated without the sequential
    walk of flip_discs: the placed cell becomes the mover's, every cell on a
    run that some direction closes becomes the mover's, and nothing else
    changes. */
module MoveEffect {
  import opened Geometry
  import opened Rules
  import opened RulesProofs
  import opened Legality

  /** q lies strictly between c and the disc of pl that closes a run seen from c. */
  ghost predicate OnRun(g: Grid, c: Point, pl: int, q: Point) {
    exists d, n, j :: IsDirection(d) && RunClosedAt(g, c, d, pl, n) && 1 <= j < n && q == Ray(c, d, j)
  }

  /** q is among the discs flip_discs turns in one of the first k directions,
      each computed on the grid g. */
  ghost predicate FlippedBelow(g: Grid, c: Point, pl: int, k: nat, q: Point)
    requires k <= 8 && IsSide(pl)
  {
    exists kk :: 0 <= kk < k && q in Flips(g, c, Dir(kk), pl)
  }

  /** The walk of Closing only reads the cells on its ray. */
  lemma {:induction false} ClosingAgree(g: Grid, h: Grid, q: Point, d: Point, pl: int)
    requires IsDirection(d)
    requires forall i :: 0 <= i && OnBoard(Ray(q, d, i)) ==> g[Idx(Ray(q, d, i))] == h[Idx(Ray(q, d, i))]
    ensures Closing(g, q, d, pl) == Closing(h, q, d, pl)
    decreases Span(q, d)
  {
    RayStep(q, d, 0);
    if OnBoard(q) {
      SpanDecreases(q, d);
      forall i | 0 <= i && OnBoard(Ray(Add(q, d), d, i))
        ensures g[Idx(Ray(Add(q, d), d, i))] == h[Idx(Ray(Add(q, d), d, i))]
      {
        RayStep(q, d, i);
      }
      ClosingAgree(g, h, Add(q, d), d, pl);
    }
  }

  /** The discs one direction turns depend only on the cells of that ray. */
  lemma FlipsAgree(g: Grid, h: Grid, c: Point, d: Point, pl: int)
    requires IsDirection(d) && IsSide(pl)
    requires forall i :: 1 <= i && OnBoard(Ray(c, d, i)) ==> g[Idx(Ray(c, d, i))] == h[Idx(Ray(c, d, i))]
    ensures Flips(g, c, d, pl) == Flips(h, c, d, pl)
  {
    var q := Add(c, d);
    RayStep(c, d, 0);
    RayStep(c, d, 1);
    RayStep(q, d, 0);
    var q2 := Add(q, d);
    assert q2 == Ray(c, d, 2);
    forall i | 0 <= i && OnBoard(Ray(q2, d, i))
      ensures g[Idx(Ray(q2, d, i))] == h[Idx(Ray(q2, d, i))]
    {
      RayShift(c, d, 2, i);
    }
    ClosingAgree(g, h, q2, d, pl);
  }

  /** The discs one direction turns are exactly the cells strictly inside
      the run that direction closes. */
  lemma FlipsOnRun(g: Grid, c: Point, d: Point, pl: int, q: Point)
    requires IsDirection(d) && IsSide(pl)
    ensures q in Flips(g, c, d, pl) <==>
      exists n, j :: RunClosedAt(g, c, d, pl, n) && 1 <= j < n && q == Ray(c, d, j)
  {
    var ds := Flips(g, c, d, pl);
    BracketsIff(g, c, d, pl);
    if ds != [] {
      BracketsRun(g, c, d, pl);
      if q in ds {
        var i :| 0 <= i < |ds| && ds[i] == q;
        assert RunClosedAt(g, c, d, pl, |ds| + 1) && 1 <= i + 1 < |ds| + 1 && q == Ray(c, d, i + 1);
      }
      if exists n, j :: RunClosedAt(g, c, d, pl, n) && 1 <= j < n && q == Ray(c, d, j) {
        var n, j :| RunClosedAt(g, c, d, pl, n) && 1 <= j < n && q == Ray(c, d, j);
        assert ds[j - 1] == q;
      }
    }
  }

  /** Turned by one of the eight directions is the same as lying on a closed run. */
  lemma FlippedIffOnRun(g: Grid, c: Point, pl: int, q: Point)
    requires IsSide(pl)
    ensures FlippedBelow(g, c, pl, 8, q) <==> OnRun(g, c, pl, q)
  {
    if FlippedBelow(g, c, pl, 8, q) {
      var kk :| 0 <= kk < 8 && q in Flips(g, c, Dir(kk), pl);
      FlipsOnRun(g, c, Dir(kk), pl, q);
      var n, j :| RunClosedAt(g, c, Dir(kk), pl, n) && 1 <= j < n && q == Ray(c, Dir(kk), j);
      assert IsDirection(Dir(kk));
    }
    if OnRun(g, c, pl, q) {
      var d, n, j :| IsDirection(d) && RunClosedAt(g, c, d, pl, n) && 1 <= j < n && q == Ray(c, d, j);
      DirectionsComplete(d);
      var kk :| 0 <= kk < 8 && Dir(kk) == d;
      FlipsOnRun(g, c, d, pl, q);
      assert q in Flips(g, c, Dir(kk), pl);
    }
  }

  /** A cell on a ray leaving c in direction Dir(k) is neither c nor turned
      by any other direction. */
  lemma RayOutside(g: Grid, c: Point, pl: int, k: nat, i: int)
    requires IsSide(pl) && k < 8 && 1 <= i
    ensures Ray(c, Dir(k), i) != c
    ensures !FlippedBelow(g, c, pl, k, Ray(c, Dir(k), i))
  {
    var r := Ray(c, Dir(k), i);
    RayStep(c, Dir(k), 0);
    if r == c {
      RayInjective(c, Dir(k), i, 0);
    }
    if FlippedBelow(g, c, pl, k, r) {
      var kk :| 0 <= kk < k && r in Flips(g, c, Dir(kk), pl);
      var ds := Flips(g, c, Dir(kk), pl);
      var m :| 0 <= m < |ds| && ds[m] == r;
      RaysDisjoint(c, Dir(k), Dir(kk), i, m + 1);
      DirInjective(k, kk);
    }
  }

  /** One more direction of flip_discs, on a grid G that so far holds pl on
      the cells turned by the first k directions and h elsewhere. */
  lemma CellsStep(g: Grid, h: Grid, G: Grid, c: Point, pl: int, k: nat)
    requires IsSide(pl) && k < 8 && OnBoard(c)
    requires forall q :: OnBoard(q) && q != c ==> h[Idx(q)] == g[Idx(q)]
    requires forall q :: OnBoard(q) ==> G[Idx(q)] == if FlippedBelow(g, c, pl, k, q) then pl else h[Idx(q)]
    ensures forall q :: OnBoard(q) ==>
      Paint(G, Flips(G, c, Dir(k), pl), pl)[Idx(q)] == if FlippedBelow(g, c, pl, k + 1, q) then pl else h[Idx(q)]
  {
    var d := Dir(k);
    forall i | 1 <= i && OnBoard(Ray(c, d, i))
      ensures G[Idx(Ray(c, d, i))] == g[Idx(Ray(c, d, i))]
    {
      RayOutside(g, c, pl, k, i);
    }
    FlipsAgree(G, g, c, d, pl);
    var ds := Flips(g, c, d, pl);
    forall q | OnBoard(q)
      ensures Paint(G, ds, pl)[Idx(q)] == if FlippedBelow(g, c, pl, k + 1, q) then pl else h[Idx(q)]
    {
      PaintAt(G, ds, pl, q);
      assert FlippedBelow(g, c, pl, k + 1, q) <==> FlippedBelow(g, c, pl, k, q) || q in ds;
    }
  }

  /** flip_discs after k directions, started on h that agrees with g away
      from c: a cell turned by one of those directions on g holds pl, every
      other cell still holds what h holds. */
  lemma {:induction false} FlipDirsCells(g: Grid, h: Grid, counts: seq<int>, c: Point, pl: int, k: nat)
    requires IsSide(pl) && |counts| == 3 && k <= 8 && OnBoard(c)
    requires forall q :: OnBoard(q) && q != c ==> h[Idx(q)] == g[Idx(q)]
    ensures forall q :: OnBoard(q) ==>
      FlipDirs(h, counts, c, pl, k).0[Idx(q)] == if FlippedBelow(g, c, pl, k, q) then pl else h[Idx(q)]
  {
    if k > 0 {
      FlipDirsCells(g, h, counts, c, pl, k - 1);
      var prev := FlipDirs(h, counts, c, pl, k - 1);
      FlipDirsNext(h, counts, c, pl, k - 1, prev.0, prev.1);
      FlipStepOf(prev.0, prev.1, c, Dir(k - 1), pl, Flips(prev.0, c, Dir(k - 1), pl));
      CellsStep(g, h, prev.0, c, pl, k - 1);
    }
  }

  /** flip_discs never touches the EMPTY counter. */
  lemma {:induction false} FlipDirsEmptyCount(g: Grid, counts: seq<int>, c: Point, pl: int, k: nat)
    requires IsSide(pl) && |counts| == 3 && k <= 8
    ensures FlipDirs(g, counts, c, pl, k).1[EMPTY] == counts[EMPTY]
  {
    if k > 0 {
      FlipDirsEmptyCount(g, counts, c, pl, k - 1);
      var prev := FlipDirs(g, counts, c, pl, k - 1);
      FlipDirsNext(g, counts, c, pl, k - 1, prev.0, prev.1);
      FlipStepOf(prev.0, prev.1, c, Dir(k - 1), pl, Flips(prev.0, c, Dir(k - 1), pl));
    }
  }

  /** The effect of a legal put_disc on the grid and the EMPTY counter: the
      placed cell holds pl, a cell on a run closed from p holds pl, every
      other cell is unchanged, and one fewer cell is empty. */
  lemma PlaceDiscEffect(g: Grid, counts: seq<int>, p: Point, pl: int)
    requires IsSide(pl) && OnBoard(p) && |counts| == 3
    ensures PlaceDisc(g, counts, p, pl).0[Idx(p)] == pl
    ensures forall q :: OnBoard(q) && q != p ==>
      PlaceDisc(g, counts, p, pl).0[Idx(q)] == if OnRun(g, p, pl, q) then pl else g[Idx(q)]
    ensures PlaceDisc(g, counts, p, pl).1[EMPTY] == counts[EMPTY] - 1
  {
    var placed := g[Idx(p) := pl];
    var counted := Placed(counts, pl);
    var f := FlipDirs(placed, counted, p, pl, 8);
    forall q | OnBoard(q) && q != p ensures placed[Idx(q)] == g[Idx(q)] {
      if Idx(q) == Idx(p) {
        IdxInjective(p, q);
      }
    }
    FlipDirsCells(g, placed, counted, p, pl, 8);
    forall q | OnBoard(q)
      ensures f.0[Idx(q)] == if q != p && OnRun(g, p, pl, q) then pl else placed[Idx(q)]
    {
      FlippedIffOnRun(g, p, pl, q);
      if q == p && FlippedBelow(g, p, pl, 8, q) {
        var kk :| 0 <= kk < 8 && q in Flips(g, p, Dir(kk), pl);
        var ds := Flips(g, p, Dir(kk), pl);
        var m :| 0 <= m < |ds| && ds[m] == q;
        RayOutside(g, p, pl, kk, m + 1);
      }
    }
    FlipDirsEmptyCount(placed, counted, p, pl, 8);
  }

  /** On a well-formed grid every cell of a closed run is an opponent disc. */
  lemma RunCellsOpponent(g: Grid, c: Point, pl: int, q: Point)
    requires WellFormed(g) && IsSide(pl) && OnRun(g, c, pl, q)
    ensures OnBoard(q) && g[Idx(q)] == Opponent(pl)
  {
    var d, n, j :| IsDirection(d) && RunClosedAt(g, c, d, pl, n) && 1 <= j < n && q == Ray(c, d, j);
    if j >= 2 {
      assert Passable(g, Ray(c, d, j), pl);
    }
  }
}
