/** What the board rules guarantee: the counter invariant, the exact effect
    of a flip, the legal-move list and the turn rule. */
module RulesProofs {
  import opened Geometry
  import opened Rules

  /** Overwriting one entry moves one unit between two counts. */
  lemma {:induction false} CountBelowUpdate(s: seq<int>, k: int, x: int, v: int, n: nat)
    requires 0 <= k < |s| && n <= |s|
    ensures CountBelow(s[k := x], v, n) ==
      CountBelow(s, v, n) - (if k < n && s[k] == v then 1 else 0) + (if k < n && x == v then 1 else 0)
  {
    if n > 0 {
      CountBelowUpdate(s, k, x, v, n - 1);
    }
  }

  lemma CountUpdate(s: seq<int>, k: int, x: int, v: int)
    requires 0 <= k < |s|
    ensures Count(s[k := x], v) == Count(s, v) - (if s[k] == v then 1 else 0) + (if x == v then 1 else 0)
  {
    CountBelowUpdate(s, k, x, v, |s|);
  }

  lemma {:induction false} CountsSumBelow(s: seq<int>, n: nat)
    requires n <= |s|
    requires forall i :: 0 <= i < |s| ==> EMPTY <= s[i] <= WHITE
    ensures CountBelow(s, EMPTY, n) + CountBelow(s, BLACK, n) + CountBelow(s, WHITE, n) == n
  {
    if n > 0 {
      CountsSumBelow(s, n - 1);
    }
  }

  /** On a sequence of EMPTY, BLACK and WHITE the three counts add up to its length. */
  lemma CountsSum(s: seq<int>)
    requires forall i :: 0 <= i < |s| ==> EMPTY <= s[i] <= WHITE
    ensures Count(s, EMPTY) + Count(s, BLACK) + Count(s, WHITE) == |s|
  {
    CountsSumBelow(s, |s|);
  }

  /** A painted cell holds the paint; every other cell is untouched. */
  lemma {:induction false} PaintAt(g: Grid, ps: seq<Point>, v: int, q: Point)
    requires forall i :: 0 <= i < |ps| ==> OnBoard(ps[i])
    requires OnBoard(q)
    ensures Paint(g, ps, v)[Idx(q)] == if q in ps then v else g[Idx(q)]
  {
    if ps != [] {
      var n := |ps| - 1;
      PaintAt(g, ps[..n], v, q);
      if Idx(ps[n]) == Idx(q) {
        IdxInjective(ps[n], q);
      }
      assert q in ps <==> q in ps[..n] || q == ps[n] by {
        assert ps == ps[..n] + [ps[n]];
      }
    }
  }

  lemma PaintAtIndex(g: Grid, ps: seq<Point>, v: int, i: int)
    requires forall j :: 0 <= j < |ps| ==> OnBoard(ps[j])
    requires 0 <= i < 64
    ensures Paint(g, ps, v)[i] == if PointAt(i) in ps then v else g[i]
  {
    PaintAt(g, ps, v, PointAt(i));
  }

  /** Painting distinct opponent discs moves exactly |ps| discs from opp to pl. */
  lemma {:induction false} PaintCount(g: Grid, ps: seq<Point>, pl: int, opp: int, w: int)
    requires forall i :: 0 <= i < |ps| ==> OnBoard(ps[i]) && g[Idx(ps[i])] == opp
    requires forall i, j :: 0 <= i < j < |ps| ==> ps[i] != ps[j]
    requires pl != opp
    ensures Count(Paint(g, ps, pl), w) ==
      Count(g, w) + (if w == pl then |ps| else if w == opp then -|ps| else 0)
  {
    if ps != [] {
      var n := |ps| - 1;
      var prev := Paint(g, ps[..n], pl);
      PaintCount(g, ps[..n], pl, opp, w);
      PaintAt(g, ps[..n], pl, ps[n]);
      assert ps[n] !in ps[..n];
      CountUpdate(prev, Idx(ps[n]), pl, w);
    }
  }

  /** Cell i of b either equals cell i of a or is an opponent disc of a turned into pl. */
  ghost predicate OnlyTurned(a: Grid, b: Grid, pl: int) {
    forall i :: 0 <= i < 64 ==> b[i] == a[i] || (a[i] == Opponent(pl) && b[i] == pl)
  }

  /** The counters equal the cell counts. */
  ghost predicate CountsMatch(g: Grid, counts: seq<int>) {
    |counts| == 3 &&
    counts[EMPTY] == Count(g, EMPTY) && counts[BLACK] == Count(g, BLACK) && counts[WHITE] == Count(g, WHITE)
  }

  /** One direction of flip_discs keeps the counters exact and only turns opponent discs. */
  lemma FlipStepKeeps(g: Grid, counts: seq<int>, c: Point, d: Point, pl: int)
    requires WellFormed(g) && IsSide(pl) && IsDirection(d) && CountsMatch(g, counts)
    ensures var r := FlipStep(g, counts, c, d, pl);
      WellFormed(r.0) && CountsMatch(r.0, r.1) && OnlyTurned(g, r.0, pl)
  {
    var ds := Flips(g, c, d, pl);
    var opp := Opponent(pl);
    forall i, j | 0 <= i < j < |ds| ensures ds[i] != ds[j] {
      if ds[i] == ds[j] {
        RayInjective(c, d, i + 1, j + 1);
      }
    }
    var r := FlipStep(g, counts, c, d, pl);
    forall w | 0 <= w <= 2 ensures Count(r.0, w) == r.1[w] {
      PaintCount(g, ds, pl, opp, w);
    }
    forall i | 0 <= i < 64 ensures r.0[i] == g[i] || (g[i] == opp && r.0[i] == pl) {
      PaintAtIndex(g, ds, pl, i);
    }
  }

  lemma {:induction false} FlipDirsKeeps(g: Grid, counts: seq<int>, c: Point, pl: int, k: nat)
    requires WellFormed(g) && IsSide(pl) && k <= 8 && CountsMatch(g, counts)
    ensures var r := FlipDirs(g, counts, c, pl, k);
      WellFormed(r.0) && CountsMatch(r.0, r.1) && OnlyTurned(g, r.0, pl)
  {
    if k > 0 {
      FlipDirsKeeps(g, counts, c, pl, k - 1);
      var prev := FlipDirs(g, counts, c, pl, k - 1);
      FlipStepKeeps(prev.0, prev.1, c, Dir(k - 1), pl);
    }
  }

  /** Placing pl's disc on an empty cell moves one unit from EMPTY to pl. */
  lemma PlaceKeeps(g: Grid, counts: seq<int>, p: Point, pl: int)
    requires WellFormed(g) && CountsMatch(g, counts) && IsSide(pl) && OnBoard(p) && g[Idx(p)] == EMPTY
    ensures WellFormed(g[Idx(p) := pl])
    ensures CountsMatch(g[Idx(p) := pl], Placed(counts, pl))
  {
    CountUpdate(g, Idx(p), pl, EMPTY);
    CountUpdate(g, Idx(p), pl, BLACK);
    CountUpdate(g, Idx(p), pl, WHITE);
  }

  /** A legal put_disc places and flips, then passes the turn. */
  lemma PutLegal(s: State, p: Point)
    requires Shaped(s) && OnBoard(p) && IsSpotValid(s.grid, s.cur, p)
    ensures var f := PlaceDisc(s.grid, s.counts, p, s.cur);
      Put(s, p) == (PassTurn(s.(grid := f.0, counts := f.1)), true)
  {
  }

  /** Illegal move: put_disc returns false, ends the game with the opponent as
      winner, and leaves the grid, counters, side to move and list unchanged. */
  lemma PutIllegal(s: State, p: Point)
    requires Shaped(s) && OnBoard(p) && !IsSpotValid(s.grid, s.cur, p)
    ensures var r := Put(s, p);
      !r.1 && r.0.done && r.0.winner == Opponent(s.cur) &&
      r.0.grid == s.grid && r.0.counts == s.counts && r.0.cur == s.cur && r.0.spots == s.spots
  {
  }

  /** After the turn has been passed the list is the legal list of the side to move. */
  lemma PassTurnSpots(s: State)
    requires Shaped(s)
    ensures var r := PassTurn(s);
      r.grid == s.grid && r.counts == s.counts && r.spots == ValidSpots(s.grid, r.cur)
  {
  }

  /** The board part of a legal move keeps the counters exact and only
      turns opponent discs (besides the placed one). */
  lemma PlaceDiscKeeps(g: Grid, counts: seq<int>, p: Point, pl: int)
    requires WellFormed(g) && CountsMatch(g, counts) && IsSide(pl) && OnBoard(p) && g[Idx(p)] == EMPTY
    ensures var f := PlaceDisc(g, counts, p, pl);
      WellFormed(f.0) && CountsMatch(f.0, f.1) && OnlyTurned(g[Idx(p) := pl], f.0, pl)
  {
    var placed := g[Idx(p) := pl];
    var counted := Placed(counts, pl);
    var f := FlipDirs(placed, counted, p, pl, 8);
    PlaceKeeps(g, counts, p, pl);
    FlipDirsKeeps(placed, counted, p, pl, 8);
  }

  lemma PassTurnInv(s: State)
    requires WellFormed(s.grid) && CountsMatch(s.grid, s.counts) && IsSide(s.cur)
    ensures Inv(PassTurn(s))
  {
    PassTurnSpots(s);
  }

  lemma LegalPutKeepsInv(s: State, p: Point)
    requires Inv(s) && OnBoard(p) && IsSpotValid(s.grid, s.cur, p)
    ensures Inv(Put(s, p).0)
  {
    PlaceDiscKeeps(s.grid, s.counts, p, s.cur);
    var f := PlaceDisc(s.grid, s.counts, p, s.cur);
    PutLegal(s, p);
    PassTurnInv(s.(grid := f.0, counts := f.1));
  }

  /** Counter invariant: every put_disc keeps the counters equal to the cell
      counts (so they sum to 64) and the cached list equal to the legal spots. */
  lemma PutKeepsInv(s: State, p: Point)
    requires Inv(s) && OnBoard(p)
    ensures Inv(Put(s, p).0)
    ensures var r := Put(s, p).0; r.counts[EMPTY] + r.counts[BLACK] + r.counts[WHITE] == 64
  {
    if IsSpotValid(s.grid, s.cur, p) {
      LegalPutKeepsInv(s, p);
    } else {
      PutIllegal(s, p);
    }
    CountsSum(Put(s, p).0.grid);
  }

  /** The constructor's state satisfies the board invariant. */
  lemma InitInv(g: Grid, pl: int)
    requires WellFormed(g) && IsSide(pl)
    ensures Inv(InitState(g, pl))
  {
    CountsSum(g);
  }

  /** Counting the opening grid up to position n: the centre discs sit at
      27 and 36 (WHITE) and at 28 and 35 (BLACK). */
  lemma {:induction false} OpeningCountBelow(n: nat)
    requires n <= 64
    ensures CountBelow(OpeningGrid(), BLACK, n) == (if n > 28 then 1 else 0) + (if n > 35 then 1 else 0)
    ensures CountBelow(OpeningGrid(), WHITE, n) == (if n > 27 then 1 else 0) + (if n > 36 then 1 else 0)
    ensures CountBelow(OpeningGrid(), EMPTY, n) ==
      n - (if n > 27 then 1 else 0) - (if n > 28 then 1 else 0) - (if n > 35 then 1 else 0) - (if n > 36 then 1 else 0)
  {
    if n > 0 {
      OpeningCountBelow(n - 1);
    }
  }

  lemma OpeningWellFormed()
    ensures WellFormed(OpeningGrid())
  {
  }

  /** The opening grid holds 60 empty cells, 2 black and 2 white discs, and
      the reset state satisfies the board invariant. */
  lemma OpeningInv()
    ensures Count(OpeningGrid(), EMPTY) == 60
    ensures Count(OpeningGrid(), BLACK) == 2 && Count(OpeningGrid(), WHITE) == 2
    ensures Inv(OpeningState())
  {
    OpeningWellFormed();
    OpeningCountBelow(64);
  }

  /** Placing the four centre discs on a cleared grid gives the opening grid. */
  lemma OpeningFrom(cleared: Grid)
    requires forall k :: 0 <= k < 64 ==> cleared[k] == EMPTY
    ensures cleared[28 := BLACK][35 := BLACK][27 := WHITE][36 := WHITE] == OpeningGrid()
  {
  }

  /** flip_discs over k + 1 directions is one more direction on the board the first k left. */
  lemma FlipDirsNext(g: Grid, counts: seq<int>, c: Point, pl: int, k: nat, gk: Grid, ck: seq<int>)
    requires |counts| == 3 && IsSide(pl) && k < 8
    requires FlipDirs(g, counts, c, pl, k).0 == gk && FlipDirs(g, counts, c, pl, k).1 == ck
    ensures FlipDirs(g, counts, c, pl, k + 1).0 == FlipStep(gk, ck, c, Dir(k), pl).0
    ensures FlipDirs(g, counts, c, pl, k + 1).1 == FlipStep(gk, ck, c, Dir(k), pl).1
  {
  }

  /** A direction that brackets nothing changes neither the grid nor the counters. */
  lemma FlipStepNone(g: Grid, counts: seq<int>, c: Point, d: Point, pl: int)
    requires |counts| == 3 && IsSide(pl) && IsDirection(d) && Flips(g, c, d, pl) == []
    ensures FlipStep(g, counts, c, d, pl).0 == g && FlipStep(g, counts, c, d, pl).1 == counts
  {
    assert counts[pl := counts[pl] + 0][Opponent(pl) := counts[Opponent(pl)] - 0] == counts;
  }
  /** One direction of flip_discs when its bracketed run is ds. */
  lemma FlipStepOf(g: Grid, counts: seq<int>, c: Point, d: Point, pl: int, ds: seq<Point>)
    requires |counts| == 3 && IsSide(pl) && IsDirection(d) && Flips(g, c, d, pl) == ds
    ensures FlipStep(g, counts, c, d, pl).0 == Paint(g, ds, pl)
    ensures FlipStep(g, counts, c, d, pl).1 == Transfer(counts, pl, |ds|)
  {
  }

  /** The walk over one more opponent disc: the run collected so far grows by p. */
  lemma WalkStep(g: Grid, p: Point, d: Point, pl: int, discs: seq<Point>)
    requires IsDirection(d) && OnBoard(p) && g[Idx(p)] != EMPTY && g[Idx(p)] != pl
    ensures (var t := Closing(g, p, d, pl); if t.None? then [] else discs + t.value) ==
            (var t := Closing(g, Add(p, d), d, pl); if t.None? then [] else (discs + [p]) + t.value)
  {
    var t := Closing(g, Add(p, d), d, pl);
    if t.Some? {
      assert discs + ([p] + t.value) == (discs + [p]) + t.value;
    }
  }
  /** Two three-entry sequences with equal entries are equal. */
  lemma SameThree(a: seq<int>, b: seq<int>)
    requires |a| == 3 && |b| == 3 && a[0] == b[0] && a[1] == b[1] && a[2] == b[2]
    ensures a == b
  {
  }
}
