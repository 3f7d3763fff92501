/** minmax and the move-selection loop of write_valid_spot: depth-bounded
    alpha-beta search over copies of the board, scored by find_value from
    the point of view of the global player `self`.

    The functions below state what the search computes on the game tree
    that minmax explores: Tree(s, depth, self) has a leaf holding find_value
    where minmax stops (depth 0 or a finished game) and otherwise one subtree
    per cached spot, in the order of next_valid_spots. */
module Search {
  import opened Geometry
  import opened Rules
  import opened RulesProofs
  import opened Othello
  import opened Evaluator

  /** The program's infinity. */
  const INF := 100000000

  /** std::max and std::min on int. */
  function Max(a: int, b: int): (r: int)
    ensures r >= a && r >= b && (r == a || r == b)
  {
    if a < b then b else a
  }

  function Min(a: int, b: int): (r: int)
    ensures r <= a && r <= b && (r == a || r == b)
  {
    if b < a then b else a
  }

  /** The board after put_disc on the d-th cached spot; put_disc keeps the
      board invariant. */
  function Child(s: State, d: nat): (c: State)
    requires Inv(s) && d < |s.spots|
    ensures Inv(c)
  {
    PutKeepsInv(s, s.spots[d]);
    Put(s, s.spots[d]).0
  }

  /** The game is over or the side to move has a legal spot. */
  predicate Live(s: State) {
    s.done || s.spots != []
  }

  /** The part of the game minmax explores: a leaf holds find_value, a node
      one subtree per cached spot. */
  datatype GameTree = Leaf(value: int) | Node(kids: seq<GameTree>)

  /** The tree minmax(board, depth, ...) explores for the global player self. */
  function Tree(s: State, depth: nat, self: int): (t: GameTree)
    requires Inv(s) && IsSide(self)
    decreases depth, 1
  {
    if depth == 0 || s.done then Leaf(Score(s.grid, s.counts, self))
    else Node(Subtrees(s, depth, self))
  }

  /** The trees of the boards each legal spot leads to, one level shallower. */
  function Subtrees(s: State, depth: nat, self: int): (ts: seq<GameTree>)
    requires Inv(s) && IsSide(self) && 0 < depth
    ensures |ts| == |s.spots|
    decreases depth, 0
  {
    seq(|s.spots|, i requires 0 <= i < |s.spots| => Tree(Child(s, i), depth - 1, self))
  }

  /** minmax(board, depth, maxer, A, B) on the tree it explores. */
  function AlphaBeta(t: GameTree, maxer: int, A: int, B: int, self: int): int
    decreases t, 1
  {
    match t
    case Leaf(v) => v
    case Node(_) =>
      if maxer == self then MaxLoop(t, 3 - maxer, A, B, self, 0, -INF)
      else if maxer == 3 - self then MinLoop(t, 3 - maxer, A, B, self, 0, INF)
      else 0
  }

  /** The maximizing loop of minmax from child d on, each child searched
      with label next, with alpha A and the best value so far v: stop once
      alpha reaches B. */
  function MaxLoop(t: GameTree, next: int, A: int, B: int, self: int, d: nat, v: int): int
    requires t.Node? && d <= |t.kids|
    decreases t, 0, |t.kids| - d
  {
    if d == |t.kids| then v
    else
      var value := Max(v, AlphaBeta(t.kids[d], next, A, B, self));
      var a := Max(A, value);
      if a >= B then value else MaxLoop(t, next, a, B, self, d + 1, value)
  }

  /** The minimizing loop of minmax from child d on, each child searched
      with label next, with beta B and the least value so far v: stop once
      beta reaches A. */
  function MinLoop(t: GameTree, next: int, A: int, B: int, self: int, d: nat, v: int): int
    requires t.Node? && d <= |t.kids|
    decreases t, 0, |t.kids| - d
  {
    if d == |t.kids| then v
    else
      var value := Min(v, AlphaBeta(t.kids[d], next, A, B, self));
      var b := Min(B, value);
      if b <= A then value else MinLoop(t, next, A, b, self, d + 1, value)
  }

  /** The plain minimax value the search approximates: every child is
      searched, and the maximizing label flips at every level as in minmax. */
  function Minimax(t: GameTree, maxer: int, self: int): int
    decreases t, 1
  {
    match t
    case Leaf(v) => v
    case Node(_) =>
      if maxer == self then MaxAll(t, 3 - maxer, self, 0)
      else if maxer == 3 - self then MinAll(t, 3 - maxer, self, 0)
      else 0
  }

  /** The greatest minimax value, with label next, among the children from
      d on; -INF when there are none. */
  function MaxAll(t: GameTree, next: int, self: int, d: nat): int
    requires t.Node? && d <= |t.kids|
    decreases t, 0, |t.kids| - d
  {
    if d == |t.kids| then -INF
    else Max(Minimax(t.kids[d], next, self), MaxAll(t, next, self, d + 1))
  }

  /** The least minimax value, with label next, among the children from d
      on; INF when there are none. */
  function MinAll(t: GameTree, next: int, self: int, d: nat): int
    requires t.Node? && d <= |t.kids|
    decreases t, 0, |t.kids| - d
  {
    if d == |t.kids| then INF
    else Min(Minimax(t.kids[d], next, self), MinAll(t, next, self, d + 1))
  }

  /** The search depth the root uses for a candidate: 11 once at most 11
      cells are empty, 5 before. */
  function RootDepth(c: State): nat
    requires |c.counts| == 3
  {
    if c.counts[EMPTY] <= 11 then 11 else 5
  }

  /** The board the root searches for its d-th candidate: the input grid
      with self to move, after put_disc on the candidate. */
  function Candidate(g: Grid, self: int, spots: seq<Point>, d: nat): (c: State)
    requires WellFormed(g) && IsSide(self) && d < |spots| && OnBoard(spots[d])
    ensures Inv(c)
  {
    InitInv(g, self);
    PutKeepsInv(InitState(g, self), spots[d]);
    Put(InitState(g, self), spots[d]).0
  }

  /** Every candidate spot is a cell of the board. */
  predicate AllOnBoard(spots: seq<Point>) {
    forall i :: 0 <= i < |spots| ==> OnBoard(spots[i])
  }

  /** The trees the root searches, one per candidate spot. */
  function RootTrees(g: Grid, self: int, spots: seq<Point>): (ts: seq<GameTree>)
    requires WellFormed(g) && IsSide(self) && AllOnBoard(spots)
    ensures |ts| == |spots|
  {
    seq(|spots|, i requires 0 <= i < |spots| =>
      var c := Candidate(g, self, spots, i);
      Tree(c, RootDepth(c), self))
  }

  /** The selection loop of write_valid_spot from candidate d on, with the
      best value A so far and its index; every candidate is searched for the
      opponent's reply with the window (A, INF). */
  function RootLoop(ts: seq<GameTree>, self: int, d: nat, A: int, index: int): int
    requires d <= |ts|
    decreases |ts| - d
  {
    if d == |ts| then index
    else
      var valueCur := AlphaBeta(ts[d], 3 - self, A, INF, self);
      if valueCur > A then RootLoop(ts, self, d + 1, valueCur, d)
      else RootLoop(ts, self, d + 1, A, index)
  }

  /** The index write_valid_spot chooses. */
  function RootChoice(g: Grid, self: int, spots: seq<Point>): int
    requires WellFormed(g) && IsSide(self) && AllOnBoard(spots)
  {
    RootLoop(RootTrees(g, self, spots), self, 0, -INF, -1)
  }

  /** The shape of the explored tree: a leaf holding find_value at the
      horizon or at the end of the game, otherwise one subtree per cached
      spot, each the tree of the child board one level shallower. */
  lemma TreeShape(s: State, depth: nat, self: int)
    requires Inv(s) && IsSide(self)
    ensures depth == 0 || s.done ==> Tree(s, depth, self) == Leaf(Score(s.grid, s.counts, self))
    ensures depth > 0 && !s.done ==> Tree(s, depth, self).Node? && |Tree(s, depth, self).kids| == |s.spots|
    ensures depth > 0 && !s.done ==> forall d :: 0 <= d < |s.spots| ==>
      Tree(s, depth, self).kids[d] == Tree(Child(s, d), depth - 1, self)
  {
  }

  /** The d-th root tree is the tree of the d-th candidate at its depth. */
  lemma RootTreeAt(g: Grid, self: int, spots: seq<Point>, d: nat)
    requires WellFormed(g) && IsSide(self) && AllOnBoard(spots) && d < |spots|
    ensures var c := Candidate(g, self, spots, d);
      RootTrees(g, self, spots)[d] == Tree(c, RootDepth(c), self)
  {
  }

  /** The value minmax(board, depth, maxer, A, B) returns for a board with
      model s. */
  function Value(s: State, depth: nat, maxer: int, A: int, B: int, self: int): int
    requires Inv(s) && IsSide(self)
  {
    AlphaBeta(Tree(s, depth, self), maxer, A, B, self)
  }

  /** The maximizing loop of minmax on board s from the d-th spot on. */
  function MaxFrom(s: State, depth: nat, next: int, A: int, B: int, self: int, d: nat, v: int): int
    requires Inv(s) && IsSide(self) && 1 <= depth && !s.done && d <= |s.spots|
  {
    TreeShape(s, depth, self);
    MaxLoop(Tree(s, depth, self), next, A, B, self, d, v)
  }

  /** The minimizing loop of minmax on board s from the d-th spot on. */
  function MinFrom(s: State, depth: nat, next: int, A: int, B: int, self: int, d: nat, v: int): int
    requires Inv(s) && IsSide(self) && 1 <= depth && !s.done && d <= |s.spots|
  {
    TreeShape(s, depth, self);
    MinLoop(Tree(s, depth, self), next, A, B, self, d, v)
  }

  /** minmax returns find_value at the horizon and at the end of the game. */
  lemma ValueLeaf(s: State, depth: nat, maxer: int, A: int, B: int, self: int)
    requires Inv(s) && IsSide(self) && (depth == 0 || s.done)
    ensures Value(s, depth, maxer, A, B, self) == Score(s.grid, s.counts, self)
  {
  }

  /** Otherwise, with the label of the global player, minmax runs the
      maximizing loop from the first spot with value -INF. */
  lemma ValueMax(s: State, depth: nat, maxer: int, A: int, B: int, self: int)
    requires Inv(s) && IsSide(self) && depth > 0 && !s.done && maxer == self
    ensures Value(s, depth, maxer, A, B, self) == MaxFrom(s, depth, 3 - maxer, A, B, self, 0, -INF)
  {
  }

  /** With the opponent's label it runs the minimizing loop from the first
      spot with value INF. */
  lemma ValueMin(s: State, depth: nat, maxer: int, A: int, B: int, self: int)
    requires Inv(s) && IsSide(self) && depth > 0 && !s.done && maxer == 3 - self
    ensures Value(s, depth, maxer, A, B, self) == MinFrom(s, depth, 3 - maxer, A, B, self, 0, INF)
  {
  }

  /** With a label that is neither side it returns 0. */
  lemma ValueOther(s: State, depth: nat, maxer: int, A: int, B: int, self: int)
    requires Inv(s) && IsSide(self) && depth > 0 && !s.done && maxer != self && maxer != 3 - self
    ensures Value(s, depth, maxer, A, B, self) == 0
  {
  }

  /** One turn of the maximizing loop: search the d-th child, raise alpha,
      and stop at the cut-off or after the last spot. */
  lemma MaxFromStep(s: State, depth: nat, next: int, A: int, B: int, self: int, d: nat, v: int)
    requires Inv(s) && IsSide(self) && 1 <= depth && !s.done && d <= |s.spots|
    ensures d == |s.spots| ==> MaxFrom(s, depth, next, A, B, self, d, v) == v
    ensures d < |s.spots| ==>
      var value := Max(v, Value(Child(s, d), depth - 1, next, A, B, self));
      MaxFrom(s, depth, next, A, B, self, d, v) ==
        if Max(A, value) >= B then value else MaxFrom(s, depth, next, Max(A, value), B, self, d + 1, value)
  {
    TreeShape(s, depth, self);
  }

  /** One turn of the minimizing loop: search the d-th child, lower beta,
      and stop at the cut-off or after the last spot. */
  lemma MinFromStep(s: State, depth: nat, next: int, A: int, B: int, self: int, d: nat, v: int)
    requires Inv(s) && IsSide(self) && 1 <= depth && !s.done && d <= |s.spots|
    ensures d == |s.spots| ==> MinFrom(s, depth, next, A, B, self, d, v) == v
    ensures d < |s.spots| ==>
      var value := Min(v, Value(Child(s, d), depth - 1, next, A, B, self));
      MinFrom(s, depth, next, A, B, self, d, v) ==
        if Min(B, value) <= A then value else MinFrom(s, depth, next, A, Min(B, value), self, d + 1, value)
  {
    TreeShape(s, depth, self);
  }

  /** minmax: find_value at the horizon or at the end of the game; otherwise
      the cut-off loop over copies of the board, one per cached spot. */
  method Minmax(boardCur: OthelloBoard, ghost s: State, depth: nat, maxer: int, A: int, B: int, self: int) returns (value: int)
    requires boardCur.Valid() && boardCur.Model() == s && IsSide(self)
    ensures value == Value(s, depth, maxer, A, B, self)
    decreases depth, 2
  {
    if depth == 0 || boardCur.done {
      ValueLeaf(s, depth, maxer, A, B, self);
      value := FindValue(boardCur, self);
      return;
    }
    if maxer == self {
      ValueMax(s, depth, maxer, A, B, self);
      value := MaxNode(boardCur, s, depth, maxer, A, B, self);
    } else if maxer == 3 - self {
      ValueMin(s, depth, maxer, A, B, self);
      value := MinNode(boardCur, s, depth, maxer, A, B, self);
    } else {
      ValueOther(s, depth, maxer, A, B, self);
      value := 0;
    }
  }

  /** The maximizing branch of minmax. */
  method MaxNode(boardCur: OthelloBoard, ghost s: State, depth: nat, maxer: int, A: int, B: int, self: int) returns (value: int)
    requires boardCur.Valid() && boardCur.Model() == s && IsSide(self) && 1 <= depth && !s.done
    ensures value == MaxFrom(s, depth, 3 - maxer, A, B, self, 0, -INF)
    decreases depth, 1
  {
    value := -INF;
    var alpha := A;
    for d := 0 to |boardCur.nextValidSpots|
      invariant boardCur.Model() == s
      invariant MaxFrom(s, depth, 3 - maxer, A, B, self, 0, -INF) == MaxFrom(s, depth, 3 - maxer, alpha, B, self, d, value)
    {
      var v := ChildValue(boardCur, s, d, depth, maxer, alpha, B, self);
      MaxFromStep(s, depth, 3 - maxer, alpha, B, self, d, value);
      value := Max(value, v);
      alpha := Max(alpha, value);
      if alpha >= B {
        break;
      }
    }
    MaxFromStep(s, depth, 3 - maxer, alpha, B, self, |s.spots|, value);
  }

  /** The minimizing branch of minmax. */
  method MinNode(boardCur: OthelloBoard, ghost s: State, depth: nat, maxer: int, A: int, B: int, self: int) returns (value: int)
    requires boardCur.Valid() && boardCur.Model() == s && IsSide(self) && 1 <= depth && !s.done
    ensures value == MinFrom(s, depth, 3 - maxer, A, B, self, 0, INF)
    decreases depth, 1
  {
    value := INF;
    var beta := B;
    for d := 0 to |boardCur.nextValidSpots|
      invariant boardCur.Model() == s
      invariant MinFrom(s, depth, 3 - maxer, A, B, self, 0, INF) == MinFrom(s, depth, 3 - maxer, A, beta, self, d, value)
    {
      var v := ChildValue(boardCur, s, d, depth, maxer, A, beta, self);
      MinFromStep(s, depth, 3 - maxer, A, beta, self, d, value);
      value := Min(value, v);
      beta := Min(beta, value);
      if beta <= A {
        break;
      }
    }
    MinFromStep(s, depth, 3 - maxer, A, beta, self, |s.spots|, value);
  }

  /** The body of one iteration: copy the board, play the d-th spot, and
      search the copy one level shallower with the label flipped. */
  method ChildValue(boardCur: OthelloBoard, ghost s: State, d: nat, depth: nat, maxer: int, A: int, B: int, self: int) returns (v: int)
    requires boardCur.Valid() && boardCur.Model() == s && IsSide(self) && 1 <= depth && d < |s.spots|
    ensures v == Value(Child(s, d), depth - 1, 3 - maxer, A, B, self)
    decreases depth - 1, 3
  {
    ghost var c := Child(s, d);
    var boardNext := NextBoard(boardCur, s, d);
    v := Minmax(boardNext, c, depth - 1, 3 - maxer, A, B, self);
  }

  /** OthelloBoard board_next = board_cur; board_next.put_disc(spot). */
  method NextBoard(boardCur: OthelloBoard, ghost s: State, d: nat) returns (boardNext: OthelloBoard)
    requires boardCur.Valid() && boardCur.Model() == s && d < |s.spots|
    ensures boardNext.Valid() && boardNext.Model() == Child(s, d)
  {
    boardNext := new OthelloBoard.Copy(boardCur);
    var _ := boardNext.PutDisc(boardCur.nextValidSpots[d]);
  }

  /** The selection loop of write_valid_spot over the candidate spots read
      from the input, for the input grid g and the global player self. */
  method WriteValidSpot(g: Grid, self: int, nextValidSpots: seq<Point>) returns (index: int)
    requires WellFormed(g) && IsSide(self) && AllOnBoard(nextValidSpots)
    ensures index == RootChoice(g, self, nextValidSpots)
  {
    ghost var ts := RootTrees(g, self, nextValidSpots);
    index := -1;
    var A, B := -INF, INF;
    for d := 0 to |nextValidSpots|
      invariant RootChoice(g, self, nextValidSpots) == RootLoop(ts, self, d, A, index)
    {
      var valueCur := CandidateValue(g, self, nextValidSpots, d, A, B);
      if valueCur > A {
        A := valueCur;
        index := d;
      }
    }
  }

  /** One candidate of the selection loop: a fresh board from the input,
      put_disc on the candidate, then minmax at the depth the empty count picks. */
  method CandidateValue(g: Grid, self: int, nextValidSpots: seq<Point>, d: nat, A: int, B: int) returns (valueCur: int)
    requires WellFormed(g) && IsSide(self) && AllOnBoard(nextValidSpots) && d < |nextValidSpots| && B == INF
    ensures valueCur == AlphaBeta(RootTrees(g, self, nextValidSpots)[d], 3 - self, A, INF, self)
  {
    ghost var c := Candidate(g, self, nextValidSpots, d);
    RootTreeAt(g, self, nextValidSpots, d);
    var boardNew := new OthelloBoard(g, self);
    var _ := boardNew.PutDisc(nextValidSpots[d]);
    if boardNew.discCount[0] <= 11 {
      valueCur := Minmax(boardNew, c, 11, 3 - self, A, B, self);
    } else {
      valueCur := Minmax(boardNew, c, 5, 3 - self, A, B, self);
    }
  }
}
