/** What the search of minmax and write_valid_spot computes: the cut-off
    loops return a fail-soft bound on the plain minimax value of the tree
    they explore, the exact value when it falls inside the window; on the
    boards the program searches every value lies within ±SCORE_BOUND, so the
    full window (-INF, INF) gives the exact minimax value, and
    write_valid_spot picks the first candidate of greatest minimax value. */
module SearchProofs {
  import opened Geometry
  import opened Rules
  import opened RulesProofs
  import opened Legality
  import opened Evaluator
  import opened Search

  /** F is a fail-soft answer for the exact value M with window (A, B): at
      or below A it bounds M from above, inside the window it is M, at or
      above B it bounds M from below. */
  predicate Sound(F: int, M: int, A: int, B: int) {
    && (F <= A ==> M <= F)
    && (A < F < B ==> M == F)
    && (B <= F ==> F <= M)
  }

  /** The greatest value among children never falls below -INF. */
  lemma {:induction false} MaxAllFloor(t: GameTree, next: int, self: int, d: nat)
    requires t.Node? && d <= |t.kids|
    ensures MaxAll(t, next, self, d) >= -INF
    decreases |t.kids| - d
  {
    if d < |t.kids| {
      MaxAllFloor(t, next, self, d + 1);
    }
  }

  /** The least value among children never rises above INF. */
  lemma {:induction false} MinAllCeiling(t: GameTree, next: int, self: int, d: nat)
    requires t.Node? && d <= |t.kids|
    ensures MinAll(t, next, self, d) <= INF
    decreases |t.kids| - d
  {
    if d < |t.kids| {
      MinAllCeiling(t, next, self, d + 1);
    }
  }

  /** minmax is a fail-soft alpha-beta search: for every window inside
      [-INF, INF] its value is a sound answer for the minimax value. */
  lemma {:induction false} AlphaBetaSound(t: GameTree, maxer: int, A: int, B: int, self: int)
    requires -INF <= A < B <= INF
    ensures Sound(AlphaBeta(t, maxer, A, B, self), Minimax(t, maxer, self), A, B)
    decreases t, 1
  {
    match t
    case Leaf(_) =>
    case Node(_) =>
      if maxer == self {
        MaxLoopSound(t, 3 - maxer, A, B, self, 0, -INF);
        MaxAllFloor(t, 3 - maxer, self, 0);
      } else if maxer == 3 - self {
        MinLoopSound(t, 3 - maxer, A, B, self, 0, INF);
        MinAllCeiling(t, 3 - maxer, self, 0);
      }
  }

  /** The maximizing loop from child d on, with the best value v so far and
      alpha A at least v, answers soundly for the greatest of v and the
      remaining children's minimax values, and never returns less than v. */
  lemma {:induction false} MaxLoopSound(t: GameTree, next: int, A: int, B: int, self: int, d: nat, v: int)
    requires t.Node? && d <= |t.kids|
    requires -INF <= v <= A < B <= INF
    ensures MaxLoop(t, next, A, B, self, d, v) >= v
    ensures Sound(MaxLoop(t, next, A, B, self, d, v), Max(v, MaxAll(t, next, self, d)), A, B)
    decreases t, 0, |t.kids| - d
  {
    if d < |t.kids| {
      var kid := t.kids[d];
      AlphaBetaSound(kid, next, A, B, self);
      var value := Max(v, AlphaBeta(kid, next, A, B, self));
      var a := Max(A, value);
      if a < B {
        MaxLoopSound(t, next, a, B, self, d + 1, value);
      }
    }
  }

  /** The minimizing loop from child d on, with the least value v so far and
      beta B at most v, answers soundly for the least of v and the remaining
      children's minimax values, and never returns more than v. */
  lemma {:induction false} MinLoopSound(t: GameTree, next: int, A: int, B: int, self: int, d: nat, v: int)
    requires t.Node? && d <= |t.kids|
    requires -INF <= A < B <= v <= INF
    ensures MinLoop(t, next, A, B, self, d, v) <= v
    ensures Sound(MinLoop(t, next, A, B, self, d, v), Min(v, MinAll(t, next, self, d)), A, B)
    decreases t, 0, |t.kids| - d
  {
    if d < |t.kids| {
      var kid := t.kids[d];
      AlphaBetaSound(kid, next, A, B, self);
      var value := Min(v, AlphaBeta(kid, next, A, B, self));
      var b := Min(B, value);
      if A < b {
        MinLoopSound(t, next, A, b, self, d + 1, value);
      }
    }
  }

  /** Every leaf lies within [-K, K] and every node has a child. */
  ghost predicate Bounded(t: GameTree, K: int) {
    match t
    case Leaf(v) => -K <= v <= K
    case Node(kids) => kids != [] && forall i :: 0 <= i < |kids| ==> Bounded(kids[i], K)
  }

  /** The minimax value of such a tree lies within [-K, K]. */
  lemma {:induction false} MinimaxBounded(t: GameTree, maxer: int, self: int, K: int)
    requires Bounded(t, K) && 0 <= K <= INF
    ensures -K <= Minimax(t, maxer, self) <= K
    decreases t, 1
  {
    match t
    case Leaf(_) =>
    case Node(_) =>
      if maxer == self {
        MaxAllBounded(t, 3 - maxer, self, K, 0);
      } else if maxer == 3 - self {
        MinAllBounded(t, 3 - maxer, self, K, 0);
      }
  }

  lemma {:induction false} MaxAllBounded(t: GameTree, next: int, self: int, K: int, d: nat)
    requires t.Node? && Bounded(t, K) && 0 <= K <= INF && d <= |t.kids|
    ensures MaxAll(t, next, self, d) <= K
    ensures d < |t.kids| ==> -K <= MaxAll(t, next, self, d)
    decreases t, 0, |t.kids| - d
  {
    if d < |t.kids| {
      MinimaxBounded(t.kids[d], next, self, K);
      MaxAllBounded(t, next, self, K, d + 1);
    }
  }

  lemma {:induction false} MinAllBounded(t: GameTree, next: int, self: int, K: int, d: nat)
    requires t.Node? && Bounded(t, K) && 0 <= K <= INF && d <= |t.kids|
    ensures -K <= MinAll(t, next, self, d)
    ensures d < |t.kids| ==> MinAll(t, next, self, d) <= K
    decreases t, 0, |t.kids| - d
  {
    if d < |t.kids| {
      MinimaxBounded(t.kids[d], next, self, K);
      MinAllBounded(t, next, self, K, d + 1);
    }
  }

  /** Every value alpha-beta returns on such a tree, for any window, lies
      within [-K, K]: a node searches at least its first child before it can
      stop, so the -INF or INF it starts from is never returned. */
  lemma {:induction false} AlphaBetaBounded(t: GameTree, maxer: int, A: int, B: int, self: int, K: int)
    requires Bounded(t, K) && 0 <= K <= INF
    ensures -K <= AlphaBeta(t, maxer, A, B, self) <= K
    decreases t, 1
  {
    match t
    case Leaf(_) =>
    case Node(_) =>
      if maxer == self {
        MaxLoopBounded(t, 3 - maxer, A, B, self, K, 0, -INF);
      } else if maxer == 3 - self {
        MinLoopBounded(t, 3 - maxer, A, B, self, K, 0, INF);
      }
  }

  /** The maximizing loop never returns less than its value so far nor more
      than K, and at least -K once it searches a child. */
  lemma {:induction false} MaxLoopBounded(t: GameTree, next: int, A: int, B: int, self: int, K: int, d: nat, v: int)
    requires t.Node? && Bounded(t, K) && 0 <= K <= INF && d <= |t.kids|
    requires v <= K
    ensures v <= MaxLoop(t, next, A, B, self, d, v) <= K
    ensures d < |t.kids| ==> -K <= MaxLoop(t, next, A, B, self, d, v)
    decreases t, 0, |t.kids| - d
  {
    if d < |t.kids| {
      AlphaBetaBounded(t.kids[d], next, A, B, self, K);
      var value := Max(v, AlphaBeta(t.kids[d], next, A, B, self));
      MaxLoopBounded(t, next, Max(A, value), B, self, K, d + 1, value);
    }
  }

  /** The minimizing loop never returns more than its value so far nor less
      than -K, and at most K once it searches a child. */
  lemma {:induction false} MinLoopBounded(t: GameTree, next: int, A: int, B: int, self: int, K: int, d: nat, v: int)
    requires t.Node? && Bounded(t, K) && 0 <= K <= INF && d <= |t.kids|
    requires -K <= v
    ensures -K <= MinLoop(t, next, A, B, self, d, v) <= v
    ensures d < |t.kids| ==> MinLoop(t, next, A, B, self, d, v) <= K
    decreases t, 0, |t.kids| - d
  {
    if d < |t.kids| {
      AlphaBetaBounded(t.kids[d], next, A, B, self, K);
      var value := Min(v, AlphaBeta(t.kids[d], next, A, B, self));
      MinLoopBounded(t, next, A, Min(B, value), self, K, d + 1, value);
    }
  }

  /** On such a tree with K below INF the full window (-INF, INF) gives the
      exact minimax value. */
  lemma FullWindow(t: GameTree, maxer: int, self: int, K: int)
    requires Bounded(t, K) && 0 <= K < INF
    ensures AlphaBeta(t, maxer, -INF, INF, self) == Minimax(t, maxer, self)
  {
    AlphaBetaSound(t, maxer, -INF, INF, self);
    MinimaxBounded(t, maxer, self, K);
  }

  /** After put_disc the game is over or the side to move has a legal spot:
      an illegal spot ends the game, and a legal one hands the turn to a
      side that can move or ends the game. */
  lemma PutLive(s: State, p: Point)
    requires Shaped(s) && OnBoard(p)
    ensures Live(Put(s, p).0)
  {
  }

  /** Every board put_disc reaches from a board minmax searches is live. */
  lemma ChildLive(s: State, d: nat)
    requires Inv(s) && d < |s.spots|
    ensures Live(Child(s, d))
  {
    PutLive(s, s.spots[d]);
  }

  /** The i-th subtree of an inner node is the tree of a live board that
      keeps the invariant. */
  lemma KidState(s: State, depth: nat, self: int, i: nat) returns (c: State)
    requires Inv(s) && IsSide(self) && 0 < depth && !s.done && i < |s.spots|
    ensures Inv(c) && Live(c)
    ensures Tree(s, depth, self).Node? && i < |Tree(s, depth, self).kids|
    ensures Tree(s, depth, self).kids[i] == Tree(c, depth - 1, self)
  {
    TreeShape(s, depth, self);
    ChildLive(s, i);
    c := Child(s, i);
  }

  /** A node whose children are all bounded by K is bounded by K. */
  lemma NodeOfBounded(t: GameTree, K: int)
    requires t.Node? && t.kids != []
    requires forall i :: 0 <= i < |t.kids| ==> Bounded(t.kids[i], K)
    ensures Bounded(t, K)
  {
  }

  /** The tree minmax explores from a live board: find_value at every leaf
      lies within ±SCORE_BOUND and every inner board has a spot to play. */
  lemma {:induction false} TreeBounded(s: State, depth: nat, self: int)
    requires Inv(s) && Live(s) && IsSide(self)
    ensures Bounded(Tree(s, depth, self), SCORE_BOUND)
    decreases depth, 2
  {
    TreeShape(s, depth, self);
    if depth == 0 || s.done {
      ScoreBounded(s, self);
    } else {
      NodeBounded(s, depth, self);
    }
  }

  lemma {:induction false} NodeBounded(s: State, depth: nat, self: int)
    requires Inv(s) && IsSide(self) && 0 < depth && !s.done && s.spots != []
    ensures Bounded(Tree(s, depth, self), SCORE_BOUND)
    decreases depth, 1
  {
    TreeShape(s, depth, self);
    var t := Tree(s, depth, self);
    forall i | 0 <= i < |t.kids|
      ensures Bounded(t.kids[i], SCORE_BOUND)
    {
      KidBounded(s, depth, self, i);
    }
    NodeOfBounded(t, SCORE_BOUND);
  }

  lemma {:induction false} KidBounded(s: State, depth: nat, self: int, i: nat)
    requires Inv(s) && IsSide(self) && 0 < depth && !s.done && i < |s.spots|
    ensures Tree(s, depth, self).Node? && i < |Tree(s, depth, self).kids|
    ensures Bounded(Tree(s, depth, self).kids[i], SCORE_BOUND)
    decreases depth, 0
  {
    var c := KidState(s, depth, self, i);
    TreeBounded(c, depth - 1, self);
  }

  /** minmax(board, depth, maxer, A, B) on a board with model s answers
      soundly, for every window inside [-INF, INF], for the minimax value of
      the tree it explores. */
  lemma MinmaxSound(s: State, depth: nat, maxer: int, A: int, B: int, self: int)
    requires Inv(s) && IsSide(self) && -INF <= A < B <= INF
    ensures Sound(Value(s, depth, maxer, A, B, self), Minimax(Tree(s, depth, self), maxer, self), A, B)
  {
    AlphaBetaSound(Tree(s, depth, self), maxer, A, B, self);
  }

  /** On a live board minmax with the full window returns the exact minimax
      value, and that value lies within ±SCORE_BOUND. */
  lemma MinmaxExact(s: State, depth: nat, maxer: int, self: int)
    requires Inv(s) && Live(s) && IsSide(self)
    ensures Value(s, depth, maxer, -INF, INF, self) == Minimax(Tree(s, depth, self), maxer, self)
    ensures -SCORE_BOUND <= Value(s, depth, maxer, -INF, INF, self) <= SCORE_BOUND
  {
    TreeBounded(s, depth, self);
    FullWindow(Tree(s, depth, self), maxer, self, SCORE_BOUND);
    MinimaxBounded(Tree(s, depth, self), maxer, self, SCORE_BOUND);
  }

  /** minmax on a live board lies within ±SCORE_BOUND whatever its window,
      so no search value comes near the 32-bit range. */
  lemma ValueBounded(s: State, depth: nat, maxer: int, A: int, B: int, self: int)
    requires Inv(s) && Live(s) && IsSide(self)
    ensures -SCORE_BOUND <= Value(s, depth, maxer, A, B, self) <= SCORE_BOUND
  {
    TreeBounded(s, depth, self);
    AlphaBetaBounded(Tree(s, depth, self), maxer, A, B, self, SCORE_BOUND);
  }

  /** The minimax value, for the opponent's reply, of the tree of the d-th
      candidate of write_valid_spot. */
  function MoveValue(g: Grid, self: int, spots: seq<Point>, d: nat): int
    requires WellFormed(g) && IsSide(self) && AllOnBoard(spots) && d < |spots|
  {
    var c := Candidate(g, self, spots, d);
    Minimax(Tree(c, RootDepth(c), self), 3 - self, self)
  }

  /** r is -1 for no trees, else the first index of greatest minimax value. */
  ghost predicate FirstBest(ts: seq<GameTree>, self: int, r: int) {
    && (|ts| == 0 ==> r == -1)
    && (|ts| > 0 ==>
        && 0 <= r < |ts|
        && (forall j :: 0 <= j < |ts| ==> Minimax(ts[j], 3 - self, self) <= Minimax(ts[r], 3 - self, self))
        && (forall j :: 0 <= j < r ==> Minimax(ts[j], 3 - self, self) < Minimax(ts[r], 3 - self, self)))
  }

  /** The selection loop keeps A equal to the greatest minimax value seen
      and index at its first occurrence: each candidate is searched with the
      window (A, INF), and a bounded value crosses A exactly when the
      candidate's minimax value does. */
  lemma {:induction false} RootLoopBest(ts: seq<GameTree>, self: int, d: nat, A: int, index: int)
    requires d <= |ts|
    requires forall j :: 0 <= j < |ts| ==> Bounded(ts[j], SCORE_BOUND)
    requires d == 0 ==> A == -INF && index == -1
    requires d > 0 ==> 0 <= index < d && A == Minimax(ts[index], 3 - self, self)
    requires d > 0 ==> forall j :: 0 <= j < d ==> Minimax(ts[j], 3 - self, self) <= A
    requires d > 0 ==> forall j :: 0 <= j < index ==> Minimax(ts[j], 3 - self, self) < A
    ensures FirstBest(ts, self, RootLoop(ts, self, d, A, index))
    decreases |ts| - d
  {
    if d < |ts| {
      var m := Minimax(ts[d], 3 - self, self);
      MinimaxBounded(ts[d], 3 - self, self, SCORE_BOUND);
      if d > 0 {
        MinimaxBounded(ts[index], 3 - self, self, SCORE_BOUND);
      }
      AlphaBetaSound(ts[d], 3 - self, A, INF, self);
      var valueCur := AlphaBeta(ts[d], 3 - self, A, INF, self);
      if valueCur > A {
        assert valueCur == m;
        RootLoopBest(ts, self, d + 1, valueCur, d);
      } else {
        RootLoopBest(ts, self, d + 1, A, index);
      }
    }
  }

  /** write_valid_spot chooses -1 exactly when there is no candidate, and
      otherwise the first candidate whose minimax value is greatest. */
  lemma WriteValidSpotBest(g: Grid, self: int, spots: seq<Point>)
    requires WellFormed(g) && IsSide(self) && AllOnBoard(spots)
    ensures var index := RootChoice(g, self, spots);
      && (index == -1 <==> spots == [])
      && (spots != [] ==>
          && 0 <= index < |spots|
          && (forall j :: 0 <= j < |spots| ==> MoveValue(g, self, spots, j) <= MoveValue(g, self, spots, index))
          && (forall j :: 0 <= j < index ==> MoveValue(g, self, spots, j) < MoveValue(g, self, spots, index)))
  {
    var ts := RootTrees(g, self, spots);
    forall j | 0 <= j < |ts|
      ensures Bounded(ts[j], SCORE_BOUND)
      ensures Minimax(ts[j], 3 - self, self) == MoveValue(g, self, spots, j)
    {
      RootTreeBounded(g, self, spots, j);
    }
    RootLoopBest(ts, self, 0, -INF, -1);
  }

  /** The tree of each candidate is bounded by SCORE_BOUND: the board after
      the candidate move is live. */
  lemma RootTreeBounded(g: Grid, self: int, spots: seq<Point>, d: nat)
    requires WellFormed(g) && IsSide(self) && AllOnBoard(spots) && d < |spots|
    ensures Bounded(RootTrees(g, self, spots)[d], SCORE_BOUND)
    ensures Minimax(RootTrees(g, self, spots)[d], 3 - self, self) == MoveValue(g, self, spots, d)
  {
    RootTreeAt(g, self, spots, d);
    InitInv(g, self);
    PutLive(InitState(g, self), spots[d]);
    var c := Candidate(g, self, spots, d);
    TreeBounded(c, RootDepth(c), self);
  }

  /** Every value the selection loop of write_valid_spot receives, for any
      alpha, lies within ±SCORE_BOUND. */
  lemma RootValueBounded(g: Grid, self: int, spots: seq<Point>, d: nat, A: int)
    requires WellFormed(g) && IsSide(self) && AllOnBoard(spots) && d < |spots|
    ensures -SCORE_BOUND <= AlphaBeta(RootTrees(g, self, spots)[d], 3 - self, A, INF, self) <= SCORE_BOUND
  {
    RootTreeBounded(g, self, spots, d);
    AlphaBetaBounded(RootTrees(g, self, spots)[d], 3 - self, A, INF, self, SCORE_BOUND);
  }

  /** When the candidates are the legal spots of the board, as the input of
      the program lists them, the chosen spot is a legal move. */
  lemma WriteValidSpotLegal(g: Grid, self: int)
    requires WellFormed(g) && IsSide(self)
    ensures var spots := ValidSpots(g, self);
      AllOnBoard(spots) &&
      var index := RootChoice(g, self, spots);
      spots != [] ==> 0 <= index < |spots| && Legal(g, self, spots[index])
  {
    var spots := ValidSpots(g, self);
    ValidSpotsIff(g, self);
    WriteValidSpotBest(g, self, spots);
    if spots != [] {
      var index := RootChoice(g, self, spots);
      assert spots[index] in spots;
    }
  }
}
