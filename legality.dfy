/** The legality rule of is_spot_valid stated directly on the rays around a
    cell, and the proof that the walking implementation decides exactly it;
    the legal-move list of get_valid_spots characterised by it. */
module Legality {
  import opened Geometry
  import opened Rules

  /** p is on the board and holds a disc that is neither EMPTY nor pl. */
  predicate Passable(g: Grid, p: Point, pl: int) {
    OnBoard(p) && g[Idx(p)] != EMPTY && g[Idx(p)] != pl
  }

  /** Seen from c along d: the neighbour is an opponent disc, the cells
      2 .. n - 1 steps away are passable, and the cell n steps away is a
      disc of pl. */
  predicate RunClosedAt(g: Grid, c: Point, d: Point, pl: int, n: int) {
    && 2 <= n
    && IsDiscAt(g, Ray(c, d, 1), Opponent(pl))
    && (forall j :: 2 <= j < n ==> Passable(g, Ray(c, d, j), pl))
    && IsDiscAt(g, Ray(c, d, n), pl)
  }

  /** The rule of the game: pl may play on c when c is empty and some
      direction from c holds a run of opponent discs closed by a disc of pl. */
  ghost predicate Legal(g: Grid, pl: int, c: Point)
    requires OnBoard(c)
  {
    g[Idx(c)] == EMPTY && exists d, n :: IsDirection(d) && RunClosedAt(g, c, d, pl, n)
  }

  /** A direction closes at most one run: the first disc of pl ends it. */
  lemma RunClosedUnique(g: Grid, c: Point, d: Point, pl: int, n: int, m: int)
    requires RunClosedAt(g, c, d, pl, n) && RunClosedAt(g, c, d, pl, m)
    ensures n == m
  {
  }

  /** The walk of Closing reaches a disc of pl after m passable cells. */
  lemma {:induction false} ClosingReaches(g: Grid, q: Point, d: Point, pl: int, m: nat)
    requires IsDirection(d) && IsSide(pl)
    requires forall i :: 0 <= i < m ==> Passable(g, Ray(q, d, i), pl)
    requires IsDiscAt(g, Ray(q, d, m), pl)
    ensures Closing(g, q, d, pl).Some?
    decreases m
  {
    RayStep(q, d, 0);
    if m > 0 {
      assert Passable(g, Ray(q, d, 0), pl);
      forall i | 0 <= i < m - 1
        ensures Passable(g, Ray(Add(q, d), d, i), pl)
      {
        RayStep(q, d, i);
      }
      RayStep(q, d, m - 1);
      ClosingReaches(g, Add(q, d), d, pl, m - 1);
    }
  }

  /** A direction the test of is_spot_valid accepts closes a run, and the
      run ends just past the discs flip_discs turns. */
  lemma BracketsRun(g: Grid, c: Point, d: Point, pl: int)
    requires IsDirection(d) && IsSide(pl) && Brackets(g, c, d, pl)
    ensures RunClosedAt(g, c, d, pl, |Flips(g, c, d, pl)| + 1)
  {
    var ds := Flips(g, c, d, pl);
    forall j | 2 <= j < |ds| + 1 ensures Passable(g, Ray(c, d, j), pl) {
      assert ds[j - 1] == Ray(c, d, j);
    }
    assert ds[0] == Ray(c, d, 1);
  }

  /** A direction that closes a run passes the test of is_spot_valid. */
  lemma RunBrackets(g: Grid, c: Point, d: Point, pl: int, n: int)
    requires IsDirection(d) && IsSide(pl) && RunClosedAt(g, c, d, pl, n)
    ensures Brackets(g, c, d, pl)
  {
    var q := Ray(c, d, 2);
    RayStep(c, d, 1);
    RayStep(Add(c, d), d, 0);
    assert Add(Add(c, d), d) == q;
    forall i | 0 <= i < n - 2 ensures Passable(g, Ray(q, d, i), pl) {
      RayShift(c, d, 2, i);
      assert Passable(g, Ray(c, d, 2 + i), pl);
    }
    RayShift(c, d, 2, n - 2);
    ClosingReaches(g, q, d, pl, n - 2);
  }

  /** The direction test of is_spot_valid succeeds exactly when the
      direction closes a run; the discs flip_discs turns are the cells
      1 .. n - 1 steps away. */
  lemma BracketsIff(g: Grid, c: Point, d: Point, pl: int)
    requires IsDirection(d) && IsSide(pl)
    ensures Brackets(g, c, d, pl) <==> exists n :: RunClosedAt(g, c, d, pl, n)
    ensures forall n :: RunClosedAt(g, c, d, pl, n) ==> n == |Flips(g, c, d, pl)| + 1
  {
    forall n | RunClosedAt(g, c, d, pl, n) ensures Brackets(g, c, d, pl) {
      RunBrackets(g, c, d, pl, n);
    }
    if Brackets(g, c, d, pl) {
      BracketsRun(g, c, d, pl);
      forall m | RunClosedAt(g, c, d, pl, m) ensures m == |Flips(g, c, d, pl)| + 1 {
        RunClosedUnique(g, c, d, pl, |Flips(g, c, d, pl)| + 1, m);
      }
    }
  }

  /** The direction loop of is_spot_valid from the k-th direction finds a
      bracketing direction exactly when one exists among the rest. */
  lemma {:induction false} BracketsFromIff(g: Grid, c: Point, pl: int, k: nat)
    requires k <= 8
    ensures BracketsFrom(g, c, pl, k) <==> exists j :: k <= j < 8 && Brackets(g, c, Dir(j), pl)
    decreases 8 - k
  {
    if k < 8 {
      BracketsFromIff(g, c, pl, k + 1);
    }
  }

  /** is_spot_valid decides the rule of the game. */
  lemma IsSpotValidIff(g: Grid, pl: int, c: Point)
    requires OnBoard(c) && IsSide(pl)
    ensures IsSpotValid(g, pl, c) <==> Legal(g, pl, c)
  {
    BracketsFromIff(g, c, pl, 0);
    if IsSpotValid(g, pl, c) {
      var j :| 0 <= j < 8 && Brackets(g, c, Dir(j), pl);
      BracketsIff(g, c, Dir(j), pl);
      var n :| RunClosedAt(g, c, Dir(j), pl, n);
      assert IsDirection(Dir(j)) && RunClosedAt(g, c, Dir(j), pl, n);
    }
    if Legal(g, pl, c) {
      var d, n :| IsDirection(d) && RunClosedAt(g, c, d, pl, n);
      DirectionsComplete(d);
      var j :| 0 <= j < 8 && Dir(j) == d;
      BracketsIff(g, c, d, pl);
      assert Brackets(g, c, Dir(j), pl);
    }
  }

  /** The spots listed among the first n cells are exactly the legal ones there. */
  lemma {:induction false} ValidSpotsBelowIff(g: Grid, pl: int, n: nat, p: Point)
    requires n <= 64 && IsSide(pl)
    ensures p in ValidSpotsBelow(g, pl, n) <==> OnBoard(p) && Idx(p) < n && Legal(g, pl, p)
  {
    if n > 0 {
      ValidSpotsBelowIff(g, pl, n - 1, p);
      var q := PointAt(n - 1);
      IsSpotValidIff(g, pl, q);
      if OnBoard(p) && Idx(p) == n - 1 {
        IdxInjective(p, q);
      }
    }
  }

  /** Appending at most one cell of index m to a list in row-major order
      whose cells all lie before m keeps it in row-major order. */
  lemma SortedAppend(prev: seq<Point>, ext: seq<Point>, m: int)
    requires forall i :: 0 <= i < |prev| ==> OnBoard(prev[i]) && Idx(prev[i]) < m
    requires forall i, j :: 0 <= i < j < |prev| ==> Idx(prev[i]) < Idx(prev[j])
    requires |ext| <= 1 && forall i :: 0 <= i < |ext| ==> OnBoard(ext[i]) && Idx(ext[i]) == m
    ensures forall i, j :: 0 <= i < j < |prev + ext| ==>
      OnBoard((prev + ext)[i]) && OnBoard((prev + ext)[j]) && Idx((prev + ext)[i]) < Idx((prev + ext)[j])
  {
  }

  /** The spots listed among the first n cells are in row-major order. */
  lemma {:induction false} ValidSpotsBelowSorted(g: Grid, pl: int, n: nat)
    requires n <= 64
    ensures forall i, j :: 0 <= i < j < |ValidSpotsBelow(g, pl, n)| ==>
      Idx(ValidSpotsBelow(g, pl, n)[i]) < Idx(ValidSpotsBelow(g, pl, n)[j])
  {
    if n > 0 {
      ValidSpotsBelowSorted(g, pl, n - 1);
      var prev := ValidSpotsBelow(g, pl, n - 1);
      var p := PointAt(n - 1);
      var ext := if g[n - 1] == EMPTY && IsSpotValid(g, pl, p) then [p] else [];
      assert ValidSpotsBelow(g, pl, n) == prev + ext;
      SortedAppend(prev, ext, n - 1);
    }
  }

  /** get_valid_spots lists every legal cell, only legal cells, each once,
      in row-major order. */
  lemma ValidSpotsIff(g: Grid, pl: int)
    requires IsSide(pl)
    ensures forall p :: p in ValidSpots(g, pl) <==> OnBoard(p) && Legal(g, pl, p)
    ensures forall i, j :: 0 <= i < j < |ValidSpots(g, pl)| ==>
      Idx(ValidSpots(g, pl)[i]) < Idx(ValidSpots(g, pl)[j])
  {
    forall p ensures p in ValidSpots(g, pl) <==> OnBoard(p) && Legal(g, pl, p) {
      ValidSpotsBelowIff(g, pl, 64, p);
    }
    ValidSpotsBelowSorted(g, pl, 64);
  }

  /** Some cell of the board is legal for pl. */
  ghost predicate CanMove(g: Grid, pl: int) {
    exists q :: OnBoard(q) && Legal(g, pl, q)
  }

  /** A side can move exactly when get_valid_spots lists something for it. */
  lemma CanMoveIff(g: Grid, pl: int)
    requires IsSide(pl)
    ensures CanMove(g, pl) <==> ValidSpots(g, pl) != []
  {
    var sp := ValidSpots(g, pl);
    ValidSpotsIff(g, pl);
    if sp != [] {
      assert sp[0] in sp;
    }
  }

  /** The turn rule of put_disc stated with the rule of the game: the
      opponent moves next exactly when it has a legal cell; otherwise the
      mover keeps the turn when it has one; the game ends, with the winner by
      disc count, exactly when neither side has a legal cell. */
  lemma PassTurnRule(s: State)
    requires Shaped(s)
    ensures PassTurn(s).cur == Opponent(s.cur) <==> CanMove(s.grid, Opponent(s.cur))
    ensures PassTurn(s).cur == s.cur <==> !CanMove(s.grid, Opponent(s.cur))
    ensures PassTurn(s).done <==> s.done || (!CanMove(s.grid, BLACK) && !CanMove(s.grid, WHITE))
    ensures PassTurn(s).done && !s.done ==> PassTurn(s).winner == Winner(s.counts)
  {
    CanMoveIff(s.grid, s.cur);
    CanMoveIff(s.grid, Opponent(s.cur));
  }

  /** put_disc returns true exactly for a legal cell, and when it ends a game
      in progress either the cell was illegal or afterwards neither side has
      a legal cell. */
  lemma PutDoneRule(s: State, p: Point)
    requires Shaped(s) && OnBoard(p)
    ensures Put(s, p).1 <==> Legal(s.grid, s.cur, p)
    ensures Put(s, p).0.done && !s.done ==>
      !Put(s, p).1 || (!CanMove(Put(s, p).0.grid, BLACK) && !CanMove(Put(s, p).0.grid, WHITE))
  {
    IsSpotValidIff(s.grid, s.cur, p);
    if IsSpotValid(s.grid, s.cur, p) {
      var placed := PlaceDisc(s.grid, s.counts, p, s.cur);
      PassTurnRule(s.(grid := placed.0, counts := placed.1));
    }
  }
}
