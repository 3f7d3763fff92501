/** The board object: the grid and counters live in arrays that put_disc
    updates in place; every method is proved against the value-level rules. */
module Othello {
  import opened Geometry
  import opened Rules
  import opened RulesProofs

  class OthelloBoard {
    const board: array<int>      // 8x8 grid, row-major: cell (x, y) at 8 * x + y
    const discCount: array<int>  // indexed by EMPTY, BLACK, WHITE
    var nextValidSpots: seq<Point>
    var curPlayer: int
    var done: bool
    var winner: int

    /** The arrays have the sizes of the C++ fixed-size arrays and are distinct. */
    ghost predicate Sized()
      reads this
    {
      board.Length == 64 && discCount.Length == 3 && board != discCount
    }

    /** The fields as a value. */
    ghost function Model(): State
      reads this, board, discCount
      requires Sized()
    {
      State(board[..], discCount[..], curPlayer, nextValidSpots, done, winner)
    }

    ghost predicate Valid()
      reads this, board, discCount
    {
      Sized() && Inv(Model())
    }

    /** OthelloBoard(b, player): copy the grid, count the discs, list the legal spots. */
    constructor (b: Grid, player: int)
      ensures Sized() && fresh(board) && fresh(discCount)
      ensures Model() == InitState(b, player)
      ensures WellFormed(b) && IsSide(player) ==> Valid()
    {
      board := new int[64](i requires 0 <= i < 64 => b[i]);
      discCount := new int[3];
      new;
      assert board[..] == b;
      CountDiscs();
      curPlayer := player;
      done := false;
      winner := -1;
      nextValidSpots := GetValidSpots();
      if WellFormed(b) && IsSide(player) {
        InitInv(b, player);
      }
    }

    /** The counting part of the constructor: tally BLACK and WHITE cells,
        and every other cell as EMPTY. */
    method CountDiscs()
      requires Sized()
      modifies discCount
      ensures discCount[..] ==
        [64 - Count(board[..], BLACK) - Count(board[..], WHITE), Count(board[..], BLACK), Count(board[..], WHITE)]
    {
      ghost var b := board[..];
      discCount[0], discCount[1], discCount[2] := 0, 0, 0;
      for i := 0 to 8
        invariant discCount[1] == CountBelow(b, BLACK, 8 * i)
        invariant discCount[2] == CountBelow(b, WHITE, 8 * i)
      {
        for j := 0 to 8
          invariant discCount[1] == CountBelow(b, BLACK, 8 * i + j)
          invariant discCount[2] == CountBelow(b, WHITE, 8 * i + j)
        {
          if board[i * 8 + j] == 1 {
            discCount[1] := discCount[1] + 1;
          } else if board[i * 8 + j] == 2 {
            discCount[2] := discCount[2] + 1;
          }
        }
      }
      discCount[0] := 64 - discCount[1] - discCount[2];
      SameThree(discCount[..], [64 - Count(b, BLACK) - Count(b, WHITE), Count(b, BLACK), Count(b, WHITE)]);
    }

    /** The copy constructor: fresh arrays holding the same values. */
    constructor Copy(b: OthelloBoard)
      requires b.Valid()
      ensures Valid() && fresh(board) && fresh(discCount)
      ensures Model() == b.Model()
    {
      board := new int[64](i requires 0 <= i < 64 reads b.board => b.board[i]);
      discCount := new int[3](i requires 0 <= i < 3 reads b.discCount => b.discCount[i]);
      nextValidSpots := b.nextValidSpots;
      curPlayer := b.curPlayer;
      done := b.done;
      winner := b.winner;
      new;
      assert board[..] == b.board[..];
      assert discCount[..] == b.discCount[..];
    }

    /** The default constructor OthelloBoard(), which calls reset. */
    constructor Init()
      ensures Valid() && fresh(board) && fresh(discCount)
      ensures Model() == OpeningState()
    {
      board := new int[64];
      discCount := new int[3];
      new;
      Reset();
      OpeningInv();
    }

    /** reset: the standard opening position, BLACK to move. */
    method Reset()
      requires Sized()
      modifies this, board, discCount
      ensures Model() == OpeningState()
    {
      SetUpGrid();
      curPlayer := BLACK;
      discCount[EMPTY] := 8 * 8 - 4;
      discCount[BLACK] := 2;
      discCount[WHITE] := 2;
      SameThree(discCount[..], [60, 2, 2]);
      nextValidSpots := GetValidSpots();
      done := false;
      winner := -1;
      assert board[..] == OpeningGrid() && discCount[..] == [60, 2, 2];
    }

    /** The grid part of reset: clear every cell, then the four centre discs. */
    method SetUpGrid()
      requires Sized()
      modifies board
      ensures board[..] == OpeningGrid()
    {
      ClearBoard();
      ghost var cleared := board[..];
      board[3 * 8 + 4], board[4 * 8 + 3] := BLACK, BLACK;
      board[3 * 8 + 3], board[4 * 8 + 4] := WHITE, WHITE;
      OpeningFrom(cleared);
    }

    /** The first loop of reset: every cell EMPTY. */
    method ClearBoard()
      requires Sized()
      modifies board
      ensures forall k :: 0 <= k < 64 ==> board[k] == EMPTY
    {
      for i := 0 to 8
        modifies board
        invariant forall k :: 0 <= k < 8 * i ==> board[k] == EMPTY
      {
        for j := 0 to 8
          modifies board
          invariant forall k :: 0 <= k < 8 * i + j ==> board[k] == EMPTY
        {
          board[i * 8 + j] := EMPTY;
        }
      }
    }

    /** get_valid_spots: every empty cell where the side to move brackets a run,
        in row-major order. */
    method GetValidSpots() returns (validSpots: seq<Point>)
      requires Sized()
      ensures validSpots == ValidSpots(board[..], curPlayer)
    {
      validSpots := [];
      for i := 0 to 8
        invariant validSpots == ValidSpotsBelow(board[..], curPlayer, 8 * i)
      {
        for j := 0 to 8
          invariant validSpots == ValidSpotsBelow(board[..], curPlayer, 8 * i + j)
        {
          var p := Point(i, j);
          assert PointAt(8 * i + j) == p;
          if board[i * 8 + j] != EMPTY {
            continue;
          }
          if IsSpotValid(board[..], curPlayer, p) {
            validSpots := validSpots + [p];
          }
        }
      }
    }

    /** flip_discs: for each direction in turn, turn the run the direction
        brackets (reading the board the previous directions left). */
    method FlipDiscs(center: Point)
      requires Sized() && IsSide(curPlayer)
      modifies board, discCount
      ensures board[..] == FlipDirs(old(board[..]), old(discCount[..]), center, curPlayer, 8).0
      ensures discCount[..] == FlipDirs(old(board[..]), old(discCount[..]), center, curPlayer, 8).1
    {
      ghost var g0 := board[..];
      ghost var c0 := discCount[..];
      ghost var pl := curPlayer;
      for k := 0 to 8
        invariant curPlayer == pl
        invariant board[..] == FlipDirs(g0, c0, center, pl, k).0
        invariant discCount[..] == FlipDirs(g0, c0, center, pl, k).1
      {
        ghost var gk := board[..];
        ghost var ck := discCount[..];
        FlipDirsNext(g0, c0, center, pl, k, gk, ck);
        var dir := DIRECTIONS[k];
        assert dir == Dir(k);
        FlipDirection(center, dir);
        assert board[..] == FlipStep(gk, ck, center, dir, pl).0;
        assert discCount[..] == FlipStep(gk, ck, center, dir, pl).1;
      }
    }

    /** The body of flip_discs for one direction: turn the run that the
        direction brackets, if any. */
    method FlipDirection(center: Point, dir: Point)
      requires Sized() && IsSide(curPlayer) && IsDirection(dir)
      modifies board, discCount
      ensures board[..] == FlipStep(old(board[..]), old(discCount[..]), center, dir, curPlayer).0
      ensures discCount[..] == FlipStep(old(board[..]), old(discCount[..]), center, dir, curPlayer).1
    {
      ghost var g := board[..];
      ghost var counts := discCount[..];
      var pl := curPlayer;
      var discs := RunToFlip(center, dir);
      if discs == [] {
        FlipStepNone(g, counts, center, dir, pl);
      } else {
        FlipStepOf(g, counts, center, dir, pl, discs);
        TurnRun(discs, pl);
      }
    }

    /** The walk of flip_discs in one direction: from the neighbour of center
        over the opponent's discs, collecting them; the collected run when the
        walk meets a disc of the mover, nothing when it leaves the board or
        meets an empty cell. */
    method RunToFlip(center: Point, dir: Point) returns (discs: seq<Point>)
      requires Sized() && IsSide(curPlayer) && IsDirection(dir)
      ensures discs == Flips(board[..], center, dir, curPlayer)
    {
      ghost var g := board[..];
      var pl := curPlayer;
      var p := Add(center, dir);
      if !IsDiscAt(board[..], p, Opponent(pl)) {
        return [];
      }
      discs := [p];
      p := Add(p, dir);
      while OnBoard(p) && board[Idx(p)] != EMPTY
        invariant discs != []
        invariant Flips(g, center, dir, pl) ==
          (var t := Closing(g, p, dir, pl); if t.None? then [] else discs + t.value)
        decreases Span(p, dir)
      {
        if board[Idx(p)] == pl {
          return;
        }
        SpanDecreases(p, dir);
        WalkStep(g, p, dir, pl, discs);
        discs := discs + [p];
        p := Add(p, dir);
      }
      discs := [];
    }

    /** The body of flip_discs once a run is found closed: set every disc of
        the run to pl and move the run's size between the two counters. */
    method TurnRun(discs: seq<Point>, pl: int)
      requires Sized() && IsSide(pl)
      requires forall i :: 0 <= i < |discs| ==> OnBoard(discs[i])
      modifies board, discCount
      ensures board[..] == Paint(old(board[..]), discs, pl)
      ensures discCount[..] == Transfer(old(discCount[..]), pl, |discs|)
    {
      ghost var g := board[..];
      for s := 0 to |discs|
        invariant board[..] == Paint(g, discs[..s], pl)
        invariant discCount[..] == old(discCount[..])
      {
        assert discs[..s + 1][..s] == discs[..s];
        board[Idx(discs[s])] := pl;
      }
      assert discs[..|discs|] == discs;
      discCount[pl] := discCount[pl] + |discs|;
      discCount[Opponent(pl)] := discCount[Opponent(pl)] - |discs|;
    }

    /** put_disc: an illegal spot forfeits the game; a legal one places the
        disc, flips, and hands the turn over (or back, or ends the game). */
    method PutDisc(p: Point) returns (ok: bool)
      requires Valid() && OnBoard(p)
      modifies this, board, discCount
      ensures Valid()
      ensures Model() == Put(old(Model()), p).0
      ensures ok == Put(old(Model()), p).1
    {
      ghost var s := Model();
      if !IsSpotValid(board[..], curPlayer, p) {
        winner := Opponent(curPlayer);
        done := true;
        PutIllegal(s, p);
        PutKeepsInv(s, p);
        return false;
      }
      PlaceAndFlip(p);
      assert Model() == s.(grid := board[..], counts := discCount[..]);
      EndTurn();
      PutLegal(s, p);
      PutKeepsInv(s, p);
      ok := true;
    }

    /** The board part of a legal put_disc: set the disc, count it, flip. */
    method PlaceAndFlip(p: Point)
      requires Sized() && IsSide(curPlayer) && OnBoard(p)
      modifies board, discCount
      ensures board[..] == PlaceDisc(old(board[..]), old(discCount[..]), p, curPlayer).0
      ensures discCount[..] == PlaceDisc(old(board[..]), old(discCount[..]), p, curPlayer).1
    {
      SetDisc(p);
      FlipDiscs(p);
    }

    /** set_disc at p for the side to move, and the counter updates beside it. */
    method SetDisc(p: Point)
      requires Sized() && IsSide(curPlayer) && OnBoard(p)
      modifies board, discCount
      ensures board[..] == old(board[..])[Idx(p) := curPlayer]
      ensures discCount[..] ==
        Placed(old(discCount[..]), curPlayer)
    {
      ghost var counted := Placed(discCount[..], curPlayer);
      board[Idx(p)] := curPlayer;
      discCount[curPlayer] := discCount[curPlayer] + 1;
      discCount[EMPTY] := discCount[EMPTY] - 1;
      SameThree(discCount[..], counted);
    }

    /** The end of put_disc after the flips: give control to the other
        player; when that player has no legal spot give it back; when neither
        has one, end the game and name the side with more discs (EMPTY on a tie). */
    method EndTurn()
      requires Sized() && IsSide(curPlayer)
      modifies this
      ensures Model() == PassTurn(old(Model()))
    {
      ghost var s := Model();
      curPlayer := Opponent(curPlayer);
      nextValidSpots := GetValidSpots();
      if |nextValidSpots| == 0 {
        curPlayer := Opponent(curPlayer);
        nextValidSpots := GetValidSpots();
        if |nextValidSpots| == 0 {
          done := true;
          var whiteDiscs := discCount[WHITE];
          var blackDiscs := discCount[BLACK];
          if whiteDiscs == blackDiscs {
            winner := EMPTY;
          } else if blackDiscs > whiteDiscs {
            winner := BLACK;
          } else {
            winner := WHITE;
          }
        }
      }
      assert board[..] == s.grid && discCount[..] == s.counts;
    }
  }
}
