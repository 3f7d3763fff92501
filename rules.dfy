/** The rules of the board as values: cell contents, the bracketing walk,
    the legal-move list, the flips of a move and the whole effect of
    `put_disc` on a board state. The class OthelloBoard is proved against
    these functions. */
module Rules {
  import opened Geometry

  const EMPTY := 0
  const BLACK := 1
  const WHITE := 2

  datatype Option<T> = None | Some(value: T)

  /** The 8x8 grid, row-major: cell (x, y) is at index 8 * x + y. */
  type Grid = g: seq<int> | |g| == 64 witness seq(64, i => EMPTY)

  predicate IsSide(v: int) {
    v == BLACK || v == WHITE
  }

  /** get_next_player */
  function Opponent(pl: int): int {
    3 - pl
  }

  /** Every cell holds EMPTY, BLACK or WHITE. */
  predicate WellFormed(g: Grid) {
    forall i :: 0 <= i < 64 ==> EMPTY <= g[i] <= WHITE
  }

  /** is_disc_at: p is on the board and holds disc. */
  predicate IsDiscAt(g: Grid, p: Point, disc: int) {
    OnBoard(p) && g[Idx(p)] == disc
  }

  /** Number of entries among the first n of s equal to v. */
  function CountBelow(s: seq<int>, v: int, n: nat): (c: nat)
    requires n <= |s|
    ensures c <= n
  {
    if n == 0 then 0
    else CountBelow(s, v, n - 1) + (if s[n - 1] == v then 1 else 0)
  }

  /** Number of entries of s equal to v. */
  function Count(s: seq<int>, v: int): nat {
    CountBelow(s, v, |s|)
  }

  /** The walk of is_spot_valid and flip_discs from q along d: the discs it
      passes (each on the board, neither empty nor pl) before it stops on a
      disc of pl; None when it leaves the board or meets an empty cell first. */
  function Closing(g: Grid, q: Point, d: Point, pl: int): (r: Option<seq<Point>>)
    requires IsDirection(d)
    ensures r.Some? ==> forall i :: 0 <= i < |r.value| ==>
      r.value[i] == Ray(q, d, i) && OnBoard(r.value[i]) &&
      g[Idx(r.value[i])] != EMPTY && g[Idx(r.value[i])] != pl
    ensures r.Some? ==> IsDiscAt(g, Ray(q, d, |r.value|), pl)
    // The grid leads the measure so that walks from constant points are
    // unfolded only as far as a proof asks, never evaluated eagerly.
    decreases g, Span(q, d)
  {
    RayNext(q, d);
    if !OnBoard(q) || g[Idx(q)] == EMPTY then None
    else if g[Idx(q)] == pl then Some([])
    else
      SpanDecreases(q, d);
      match Closing(g, Add(q, d), d, pl)
      case None => None
      case Some(rest) => Some([q] + rest)
  }

  /** The direction test of is_spot_valid: the neighbour of c in direction d
      is an opponent disc and the walk beyond it closes on a disc of pl. */
  predicate Brackets(g: Grid, c: Point, d: Point, pl: int)
    requires IsDirection(d)
  {
    var q := Add(c, d);
    IsDiscAt(g, q, Opponent(pl)) && Closing(g, Add(q, d), d, pl).Some?
  }

  /** The direction loop of is_spot_valid from the k-th direction on. */
  predicate BracketsFrom(g: Grid, c: Point, pl: int, k: nat)
    requires k <= 8
    decreases g, 8 - k
  {
    k < 8 && (Brackets(g, c, Dir(k), pl) || BracketsFrom(g, c, pl, k + 1))
  }

  /** is_spot_valid: c is empty and some direction brackets a run. */
  predicate IsSpotValid(g: Grid, pl: int, c: Point)
    requires OnBoard(c)
  {
    g[Idx(c)] == EMPTY && BracketsFrom(g, c, pl, 0)
  }

  /** The discs flip_discs turns over in direction d when pl has played at c. */
  function Flips(g: Grid, c: Point, d: Point, pl: int): (ds: seq<Point>)
    requires IsDirection(d) && IsSide(pl)
    ensures forall i :: 0 <= i < |ds| ==>
      ds[i] == Ray(c, d, i + 1) && OnBoard(ds[i]) &&
      g[Idx(ds[i])] != EMPTY && g[Idx(ds[i])] != pl
    ensures ds != [] <==> Brackets(g, c, d, pl)
    ensures ds != [] ==> g[Idx(ds[0])] == Opponent(pl) && IsDiscAt(g, Ray(c, d, |ds| + 1), pl)
  {
    var q := Add(c, d);
    if !IsDiscAt(g, q, Opponent(pl)) then []
    else
      var tail := Closing(g, Add(q, d), d, pl);
      if tail.None? then []
      else
        FlipsShape(g, c, d, pl, tail.value);
        [q] + tail.value
  }

  lemma FlipsShape(g: Grid, c: Point, d: Point, pl: int, rest: seq<Point>)
    requires IsDirection(d) && IsSide(pl) && IsDiscAt(g, Add(c, d), Opponent(pl))
    requires Closing(g, Add(Add(c, d), d), d, pl) == Some(rest)
    ensures forall i :: 0 <= i < |rest| + 1 ==>
      var ds := [Add(c, d)] + rest;
      ds[i] == Ray(c, d, i + 1) && OnBoard(ds[i]) &&
      g[Idx(ds[i])] != EMPTY && g[Idx(ds[i])] != pl
    ensures IsDiscAt(g, Ray(c, d, |rest| + 2), pl)
  {
    var q := Add(c, d);
    var ds := [q] + rest;
    forall i | 0 <= i < |rest| + 1
      ensures ds[i] == Ray(c, d, i + 1) && OnBoard(ds[i]) &&
              g[Idx(ds[i])] != EMPTY && g[Idx(ds[i])] != pl
    {
      if i > 0 {
        assert ds[i] == rest[i - 1];
        RayStep(q, d, i - 1);
        RayStep(c, d, i);
      }
    }
    RayStep(q, d, |rest|);
    RayStep(c, d, |rest| + 1);
  }

  /** Sets every listed cell to v, first to last. */
  function Paint(g: Grid, ps: seq<Point>, v: int): Grid
    requires forall i :: 0 <= i < |ps| ==> OnBoard(ps[i])
  {
    if ps == [] then g
    else Paint(g, ps[..|ps| - 1], v)[Idx(ps[|ps| - 1]) := v]
  }

  /** The counters after pl places one disc on an empty cell. */
  function Placed(counts: seq<int>, pl: int): (r: seq<int>)
    requires |counts| == 3 && IsSide(pl)
    ensures |r| == 3
  {
    counts[pl := counts[pl] + 1][EMPTY := counts[EMPTY] - 1]
  }

  /** The counters after n discs of the opponent of pl turn to pl. */
  function Transfer(counts: seq<int>, pl: int, n: int): (r: seq<int>)
    requires |counts| == 3 && IsSide(pl)
    ensures |r| == 3
  {
    counts[pl := counts[pl] + n][Opponent(pl) := counts[Opponent(pl)] - n]
  }

  /** One direction of flip_discs: paint the bracketed run and move its
      size from the opponent's counter to pl's. */
  function FlipStep(g: Grid, counts: seq<int>, c: Point, d: Point, pl: int): (r: (Grid, seq<int>))
    requires |counts| == 3 && IsSide(pl) && IsDirection(d)
    ensures |r.1| == 3
  {
    var ds := Flips(g, c, d, pl);
    (Paint(g, ds, pl), Transfer(counts, pl, |ds|))
  }

  /** flip_discs after its first k directions, each reading the board the
      previous ones left. */
  function FlipDirs(g: Grid, counts: seq<int>, c: Point, pl: int, k: nat): (r: (Grid, seq<int>))
    requires |counts| == 3 && IsSide(pl) && k <= 8
    ensures |r.1| == 3
  {
    if k == 0 then (g, counts)
    else
      var prev := FlipDirs(g, counts, c, pl, k - 1);
      FlipStep(prev.0, prev.1, c, Dir(k - 1), pl)
  }

  /** The spots get_valid_spots lists among the first n cells in row-major order. */
  function ValidSpotsBelow(g: Grid, pl: int, n: nat): (spots: seq<Point>)
    requires n <= 64
    ensures forall i :: 0 <= i < |spots| ==> OnBoard(spots[i]) && Idx(spots[i]) < n
  {
    if n == 0 then []
    else
      var p := PointAt(n - 1);
      ValidSpotsBelow(g, pl, n - 1) + (if g[n - 1] == EMPTY && IsSpotValid(g, pl, p) then [p] else [])
  }

  /** get_valid_spots */
  function ValidSpots(g: Grid, pl: int): seq<Point> {
    ValidSpotsBelow(g, pl, |g|)
  }

  /** A board state: the fields of OthelloBoard. */
  datatype State = State(
    grid: Grid,
    counts: seq<int>,   // disc_count[EMPTY], disc_count[BLACK], disc_count[WHITE]
    cur: int,           // cur_player
    spots: seq<Point>,  // next_valid_spots
    done: bool,
    winner: int)

  /** What put_disc needs of a state to index its counters. */
  predicate Shaped(s: State) {
    |s.counts| == 3 && IsSide(s.cur)
  }

  /** The board invariant: well-formed cells, counters equal to the cell
      counts, and the cached list equal to the legal spots of the side to move. */
  predicate Inv(s: State) {
    && Shaped(s)
    && WellFormed(s.grid)
    && s.counts[EMPTY] == Count(s.grid, EMPTY)
    && s.counts[BLACK] == Count(s.grid, BLACK)
    && s.counts[WHITE] == Count(s.grid, WHITE)
    && s.spots == ValidSpots(s.grid, s.cur)
  }

  /** The winner put_disc declares at the end of the game. */
  function Winner(counts: seq<int>): int
    requires |counts| == 3
  {
    var whiteDiscs := counts[WHITE];
    var blackDiscs := counts[BLACK];
    if whiteDiscs == blackDiscs then EMPTY
    else if blackDiscs > whiteDiscs then BLACK
    else WHITE
  }

  /** The board part of a legal put_disc: set the disc, count it, then flip_discs. */
  function PlaceDisc(g: Grid, counts: seq<int>, p: Point, pl: int): (r: (Grid, seq<int>))
    requires |counts| == 3 && IsSide(pl) && OnBoard(p)
    ensures |r.1| == 3
  {
    FlipDirs(g[Idx(p) := pl], Placed(counts, pl), p, pl, 8)
  }

  /** The end of put_disc once grid and counters are updated: hand the turn
      to the opponent, give it back to the mover when the opponent has no
      legal spot, and end the game when neither side has one. */
  function PassTurn(s: State): (r: State)
    requires Shaped(s)
    ensures Shaped(r)
  {
    var next := Opponent(s.cur);
    var nextSpots := ValidSpots(s.grid, next);
    if nextSpots != [] then
      s.(cur := next, spots := nextSpots)
    else
      var back := Opponent(next);
      var backSpots := ValidSpots(s.grid, back);
      if backSpots != [] then
        s.(cur := back, spots := backSpots)
      else
        s.(cur := back, spots := backSpots, done := true, winner := Winner(s.counts))
  }

  /** put_disc: the new state and the returned flag. */
  function Put(s: State, p: Point): (r: (State, bool))
    requires Shaped(s) && OnBoard(p)
    ensures Shaped(r.0)
  {
    var pl := s.cur;
    if !IsSpotValid(s.grid, pl, p) then
      (s.(winner := Opponent(pl), done := true), false)
    else
      var placed := PlaceDisc(s.grid, s.counts, p, pl);
      (PassTurn(s.(grid := placed.0, counts := placed.1)), true)
  }

  /** The constructor OthelloBoard(b, player). */
  function InitState(g: Grid, pl: int): State {
    var blacks := Count(g, BLACK);
    var whites := Count(g, WHITE);
    State(g, [64 - blacks - whites, blacks, whites], pl, ValidSpots(g, pl), false, -1)
  }

  /** The grid reset builds: WHITE on (3,3) and (4,4), BLACK on (3,4) and (4,3). */
  function OpeningGrid(): Grid {
    seq(64, i requires 0 <= i < 64 =>
      if i == 27 || i == 36 then WHITE
      else if i == 28 || i == 35 then BLACK
      else EMPTY)
  }

  /** The state reset produces. */
  function OpeningState(): State {
    State(OpeningGrid(), [60, 2, 2], BLACK, ValidSpots(OpeningGrid(), BLACK), false, -1)
  }
}
