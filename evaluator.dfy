/** The static evaluation of a board from the point of view of `self` (the
    program's global `player`): a positional score from a weight table whose
    corner neighbourhoods depend on who holds the corner, a density bonus,
    and a material term late in the game. */
module Evaluator {
  import opened Geometry
  import opened Rules
  import opened Othello

  /** Largest absolute score any board can get; far below INF. */
  const SCORE_BOUND := 7360

  /** The base weight table of heuristic, indexed [x][y] like the board. */
  const BASE: Table := [
    [ 100, -30,   6,   2,   2,   6, -30, 100],
    [ -30, -50,   0,   0,   0,   0, -50, -30],
    [   6,   0,  10,   0,   0,  10,   0,   6],
    [   2,   0,   0,   3,   3,   0,   0,   2],
    [   2,   0,   0,   3,   3,   0,   0,   2],
    [   6,   0,  10,   0,   0,  10,   0,   6],
    [ -30, -50,   0,   0,   0,   0, -50, -30],
    [ 100, -30,   6,   2,   2,   6, -30, 100]
  ]

  /** An 8 x 8 table of weights. */
  type Table = w: seq<seq<int>> | |w| == 8 && forall x :: 0 <= x < 8 ==> |w[x]| == 8
    witness [[0, 0, 0, 0, 0, 0, 0, 0], [0, 0, 0, 0, 0, 0, 0, 0], [0, 0, 0, 0, 0, 0, 0, 0], [0, 0, 0, 0, 0, 0, 0, 0],
             [0, 0, 0, 0, 0, 0, 0, 0], [0, 0, 0, 0, 0, 0, 0, 0], [0, 0, 0, 0, 0, 0, 0, 0], [0, 0, 0, 0, 0, 0, 0, 0]]

  /** The corners in the order heuristic inspects them. */
  const CORNERS: seq<Point> := [Point(0, 0), Point(7, 0), Point(0, 7), Point(7, 7)]

  /** The three neighbours of each corner, in the order heuristic writes them. */
  const NEIGHBOURS: seq<seq<Point>> := [
    [Point(0, 1), Point(1, 0), Point(1, 1)],
    [Point(7, 1), Point(6, 0), Point(6, 1)],
    [Point(0, 6), Point(1, 6), Point(1, 7)],
    [Point(6, 6), Point(6, 7), Point(7, 6)]
  ]

  /** The position in CORNERS of the corner whose three neighbours include
      (x, y); 4 for a corner itself and for every cell away from the corners. */
  function CornerOf(x: int, y: int): (k: nat)
    ensures k <= 4
  {
    var cx := if x <= 1 then 0 else if x >= 6 then 7 else -1;
    var cy := if y <= 1 then 0 else if y >= 6 then 7 else -1;
    if cx < 0 || cy < 0 || (x == cx && y == cy) then 4
    else if cx == 0 && cy == 0 then 0
    else if cx == 7 && cy == 0 then 1
    else if cx == 0 then 2
    else 3
  }

  /** The weight of cell (x, y) in table w after the corner rule: 50 next
      to a corner self holds, -50 next to a corner the opponent holds, the
      table's own weight otherwise. */
  function Adjusted(w: Table, g: Grid, self: int, x: int, y: int): int
    requires 0 <= x < 8 && 0 <= y < 8
  {
    var k := CornerOf(x, y);
    if k < 4 && g[Idx(CORNERS[k])] == self then 50
    else if k < 4 && g[Idx(CORNERS[k])] == Opponent(self) then -50
    else w[x][y]
  }

  /** The weight heuristic gives cell (x, y). */
  function Weight(g: Grid, self: int, x: int, y: int): int
    requires 0 <= x < 8 && 0 <= y < 8
  {
    Adjusted(BASE, g, self, x, y)
  }

  /** The cell (x, y) holds a disc; a cell off the board counts as empty. */
  predicate Occupied(g: Grid, x: int, y: int) {
    0 <= x < 8 && 0 <= y < 8 && g[8 * x + y] != EMPTY
  }

  /** The density test of heuristic at (i, j), with its fourth disjunct
      testing the cell (i - 1, j - 1) twice as written. */
  predicate Dense(g: Grid, i: int, j: int) {
    (Occupied(g, i + 1, j) && Occupied(g, i - 1, j)) ||
    (Occupied(g, i + 1, j + 1) && Occupied(g, i - 1, j - 1)) ||
    (Occupied(g, i, j - 1) && Occupied(g, i, j + 1)) ||
    (Occupied(g, i - 1, j - 1) && Occupied(g, i - 1, j - 1))
  }

  /** The contribution of cell (x, y): its weight for self's disc, minus it
      for the opponent's, nothing for an empty cell; plus 10 when dense. */
  function CellScore(g: Grid, self: int, x: int, y: int): int
    requires 0 <= x < 8 && 0 <= y < 8
  {
    (if g[8 * x + y] == self then Weight(g, self, x, y)
     else if g[8 * x + y] == Opponent(self) then -Weight(g, self, x, y)
     else 0) +
    (if Dense(g, x, y) then 10 else 0)
  }

  /** The sum of CellScore over the first n cells of row x. */
  function RowScore(g: Grid, self: int, x: int, n: nat): int
    requires 0 <= x < 8 && n <= 8
  {
    if n == 0 then 0 else RowScore(g, self, x, n - 1) + CellScore(g, self, x, n - 1)
  }

  /** The sum of CellScore over the first n rows. */
  function ScoreBelow(g: Grid, self: int, n: nat): int
    requires n <= 8
  {
    if n == 0 then 0 else ScoreBelow(g, self, n - 1) + RowScore(g, self, n - 1, 8)
  }

  /** heuristic(now) for the global player self. */
  function HeuristicValue(g: Grid, self: int): int {
    ScoreBelow(g, self, 8)
  }

  /** find_value: the material term joins once more than 50 discs are down. */
  function Score(g: Grid, counts: seq<int>, self: int): int
    requires |counts| == 3 && IsSide(self)
  {
    if counts[BLACK] + counts[WHITE] > 50 then
      (counts[self] - counts[Opponent(self)]) * 5 + HeuristicValue(g, self)
    else
      HeuristicValue(g, self)
  }

  /** CornerOf picks out exactly the three neighbours listed for each corner. */
  lemma NeighboursExact(k: nat)
    requires k < 4
    ensures forall x, y :: 0 <= x < 8 && 0 <= y < 8 ==> (CornerOf(x, y) == k <==> Point(x, y) in NEIGHBOURS[k])
  {
  }

  /** The corner rule of heuristic: each listed neighbour of a corner weighs
      50 when self holds the corner, -50 when the opponent does, and keeps
      the base weight when the corner is empty; every other cell keeps its
      base weight. */
  lemma CornerWeights(g: Grid, self: int, x: int, y: int)
    requires WellFormed(g) && IsSide(self) && 0 <= x < 8 && 0 <= y < 8
    ensures forall k :: 0 <= k < 4 && Point(x, y) in NEIGHBOURS[k] ==>
      Weight(g, self, x, y) ==
        if g[Idx(CORNERS[k])] == self then 50
        else if g[Idx(CORNERS[k])] == EMPTY then BASE[x][y]
        else -50
    ensures (forall k :: 0 <= k < 4 ==> Point(x, y) !in NEIGHBOURS[k]) ==> Weight(g, self, x, y) == BASE[x][y]
  {
    var k := CornerOf(x, y);
    if k < 4 {
      NeighboursExact(k);
    }
    forall j | 0 <= j < 4 && Point(x, y) in NEIGHBOURS[j] ensures j == k {
      NeighboursExact(j);
    }
  }

  lemma BaseBounded(x: int, y: int)
    requires 0 <= x < 8 && 0 <= y < 8
    ensures -100 <= BASE[x][y] <= 100
  {
  }

  /** Every weight lies in [-100, 100]. */
  lemma WeightBounded(g: Grid, self: int, x: int, y: int)
    requires 0 <= x < 8 && 0 <= y < 8
    ensures -100 <= Weight(g, self, x, y) <= 100
  {
    BaseBounded(x, y);
  }

  /** The diagonal pair of the density test is absorbed by the fourth
      disjunct: the test reads as a vertical pair, a horizontal pair, or
      the single cell (i - 1, j - 1). */
  lemma DenseReads(g: Grid, i: int, j: int)
    ensures Dense(g, i, j) <==>
      (Occupied(g, i + 1, j) && Occupied(g, i - 1, j)) ||
      (Occupied(g, i, j - 1) && Occupied(g, i, j + 1)) ||
      Occupied(g, i - 1, j - 1)
  {
  }

  lemma {:induction false} RowScoreBounded(g: Grid, self: int, x: int, n: nat)
    requires IsSide(self) && 0 <= x < 8 && n <= 8
    ensures -100 * n <= RowScore(g, self, x, n) <= 110 * n
  {
    if n > 0 {
      RowScoreBounded(g, self, x, n - 1);
      WeightBounded(g, self, x, n - 1);
    }
  }

  lemma {:induction false} ScoreBelowBounded(g: Grid, self: int, n: nat)
    requires IsSide(self) && n <= 8
    ensures -800 * n <= ScoreBelow(g, self, n) <= 880 * n
  {
    if n > 0 {
      ScoreBelowBounded(g, self, n - 1);
      RowScoreBounded(g, self, n - 1, 8);
    }
  }

  /** heuristic lies in [-6400, 7040]. */
  lemma HeuristicBounded(g: Grid, self: int)
    requires IsSide(self)
    ensures -6400 <= HeuristicValue(g, self) <= 7040
  {
    ScoreBelowBounded(g, self, 8);
  }

  /** find_value of a board whose counters are cell counts stays within
      SCORE_BOUND, far inside (-INF, INF). */
  lemma ScoreBounded(s: State, self: int)
    requires Inv(s) && IsSide(self)
    ensures -SCORE_BOUND <= Score(s.grid, s.counts, self) <= SCORE_BOUND
  {
    HeuristicBounded(s.grid, self);
  }

  /** now.board[x][y], read as EMPTY off the board: the read CellValue makes
      on the board object, agreeing with Occupied on the grid it holds. */
  function Cell(now: OthelloBoard, x: int, y: int): (v: int)
    reads now, now.board
    requires now.Sized()
    ensures v != EMPTY <==> Occupied(now.board[..], x, y)
  {
    if 0 <= x < 8 && 0 <= y < 8 then now.board[8 * x + y] else EMPTY
  }

  /** The array a holds the adjusted weight of w for every cell next to one
      of the first k corners and w's own weight for every other cell. */
  ghost predicate WeightsUpTo(a: array2<int>, w: Table, g: Grid, self: int, k: nat)
    reads a
  {
    && a.Length0 == 8 && a.Length1 == 8
    && forall x, y :: 0 <= x < 8 && 0 <= y < 8 ==>
         a[x, y] == if CornerOf(x, y) < k then Adjusted(w, g, self, x, y) else w[x][y]
  }

  /** heuristic: build the weight table, then add every cell's weighted
      ownership and density bonus. */
  method Heuristic(now: OthelloBoard, self: int) returns (heu: int)
    requires now.Sized() && IsSide(self)
    ensures heu == HeuristicValue(now.board[..], self)
  {
    ghost var g := now.board[..];
    var boardValue := BoardValue(now, self);
    heu := 0;
    for i := 0 to 8
      invariant heu == ScoreBelow(g, self, i)
      modifies {}
    {
      for j := 0 to 8
        invariant heu == ScoreBelow(g, self, i) + RowScore(g, self, i, j)
        modifies {}
      {
        var cell := CellValue(now, self, boardValue, i, j);
        heu := heu + cell;
      }
    }
  }

  /** The body of heuristic's loop for cell (i, j): the owned weight, then
      the density bonus. */
  method CellValue(now: OthelloBoard, self: int, boardValue: array2<int>, i: int, j: int) returns (heu: int)
    requires now.Sized() && IsSide(self) && 0 <= i < 8 && 0 <= j < 8
    requires boardValue.Length0 == 8 && boardValue.Length1 == 8
    requires boardValue[i, j] == Weight(now.board[..], self, i, j)
    ensures heu == CellScore(now.board[..], self, i, j)
  {
    heu := 0;
    if now.board[i * 8 + j] == self {
      heu := heu + boardValue[i, j];
    } else if now.board[i * 8 + j] == 3 - self {
      heu := heu - boardValue[i, j];
    }
    if (Cell(now, i + 1, j) != 0 && Cell(now, i - 1, j) != 0) ||
       (Cell(now, i + 1, j + 1) != 0 && Cell(now, i - 1, j - 1) != 0) ||
       (Cell(now, i, j - 1) != 0 && Cell(now, i, j + 1) != 0) ||
       (Cell(now, i - 1, j - 1) != 0 && Cell(now, i - 1, j - 1) != 0) {
      heu := heu + 10;
    }
  }

  /** The local table of heuristic: the base table with the four corner
      overrides applied in source order. */
  method BoardValue(now: OthelloBoard, self: int) returns (boardValue: array2<int>)
    requires now.Sized() && IsSide(self)
    ensures fresh(boardValue) && boardValue.Length0 == 8 && boardValue.Length1 == 8
    ensures forall x, y :: 0 <= x < 8 && 0 <= y < 8 ==> boardValue[x, y] == Weight(now.board[..], self, x, y)
  {
    boardValue := new int[8, 8]((x, y) requires 0 <= x < 8 && 0 <= y < 8 => BASE[x][y]);
    OverrideCorner(now, self, boardValue, BASE, 0, Point(0, 1), Point(1, 0), Point(1, 1));
    OverrideCorner(now, self, boardValue, BASE, 1, Point(7, 1), Point(6, 0), Point(6, 1));
    OverrideCorner(now, self, boardValue, BASE, 2, Point(0, 6), Point(1, 6), Point(1, 7));
    OverrideCorner(now, self, boardValue, BASE, 3, Point(6, 6), Point(6, 7), Point(7, 6));
  }

  /** One corner override of heuristic: the three neighbours a, b, c of the
      k-th corner weigh 50 when self holds it and -50 when the opponent does. */
  method OverrideCorner(now: OthelloBoard, self: int, boardValue: array2<int>, ghost w: Table, k: nat, a: Point, b: Point, c: Point)
    requires now.Sized() && IsSide(self) && k < 4 && WeightsUpTo(boardValue, w, now.board[..], self, k)
    requires [a, b, c] == NEIGHBOURS[k]
    requires OnBoard(a) && OnBoard(b) && OnBoard(c)
    modifies boardValue
    ensures WeightsUpTo(boardValue, w, now.board[..], self, k + 1)
  {
    ghost var g := now.board[..];
    NeighboursExact(k);
    var corner := now.board[Idx(CORNERS[k])];
    if corner == self {
      SetThree(boardValue, a, b, c, 50);
    } else if corner == 3 - self {
      SetThree(boardValue, a, b, c, -50);
    }
    forall x, y | 0 <= x < 8 && 0 <= y < 8
      ensures boardValue[x, y] == if CornerOf(x, y) < k + 1 then Adjusted(w, g, self, x, y) else w[x][y]
    {
      if Point(x, y) in [a, b, c] {
        assert CornerOf(x, y) == k;
      } else {
        assert CornerOf(x, y) != k;
      }
    }
  }

  /** The chained assignment of heuristic: cells a, b and c of the table get v. */
  method SetThree(boardValue: array2<int>, a: Point, b: Point, c: Point, v: int)
    requires boardValue.Length0 == 8 && boardValue.Length1 == 8 && OnBoard(a) && OnBoard(b) && OnBoard(c)
    modifies boardValue
    ensures forall x, y :: 0 <= x < 8 && 0 <= y < 8 ==>
      boardValue[x, y] == if Point(x, y) in [a, b, c] then v else old(boardValue[x, y])
  {
    boardValue[a.x, a.y], boardValue[b.x, b.y], boardValue[c.x, c.y] := v, v, v;
  }

  /** find_value */
  method FindValue(board: OthelloBoard, self: int) returns (v: int)
    requires board.Sized() && IsSide(self)
    ensures v == Score(board.board[..], board.discCount[..], self)
  {
    var h := Heuristic(board, self);
    if board.discCount[1] + board.discCount[2] > 50 {
      v := (board.discCount[self] - board.discCount[3 - self]) * 5 + h;
    } else {
      v := h;
    }
  }
}
