/**
 * The panel's game state, updated in place: the nine tiles in an array,
 * whose turn it is, and the result code of the board.
 */
module Game {
  import opened Board
  import opened Layout

  class TicTacToe {
    const tiles: array<int>
    var isXTurn: bool
    var gameOver: int

    /**
     * Every tile is empty, X or O; the result code is that of the board;
     * the players have alternated, X first; and at most one player has
     * three in a row.
     */
    ghost predicate Valid()
      reads this, tiles
    {
      WellFormed(tiles[..]) &&
      gameOver == Outcome(tiles[..]) &&
      Balanced(tiles[..], isXTurn) &&
      SingleWinner(tiles[..])
    }

    constructor ()
      ensures Valid() && fresh(tiles)
      ensures tiles[..] == EmptyBoard() && isXTurn && gameOver == InProgress
    {
      tiles := new int[Cells](_ => Empty);
      isXTurn := true;
      gameOver := InProgress;
      new;
      NewGame();
    }

    /** Clears the board and gives the first move to X, whatever the state was. */
    method NewGame()
      requires tiles.Length == Cells
      modifies this, tiles
      ensures Valid()
      ensures tiles[..] == EmptyBoard() && isXTurn && gameOver == InProgress
    {
      Reset();
      gameOver := InProgress;
      isXTurn := true;
      assert tiles[..] == EmptyBoard();
      EmptyBoardStart();
    }

    /** Empties every tile. */
    method Reset()
      modifies tiles
      ensures forall i :: 0 <= i < tiles.Length ==> tiles[i] == Empty
    {
      forall i | 0 <= i < tiles.Length {
        tiles[i] := Empty;
      }
    }

    /**
     * Scans the 8 lines for a sum of three X or three O, then tests whether
     * the board is full; it reads the tiles and changes nothing.
     */
    method IsGameOver() returns (r: int)
      requires tiles.Length == Cells
      ensures r == Outcome(tiles[..])
    {
      for a := 0 to 8
        invariant ScanFrom(tiles[..], a) == Outcome(tiles[..])
      {
        var l := LineOf(a);
        var line := tiles[l.a] + tiles[l.b] + tiles[l.c];
        if line == XValue * 3 {
          return XValue;
        } else if line == OValue * 3 {
          return OValue;
        }
      }
      for i := 0 to Cells
        invariant i < Cells
        invariant forall k :: 0 <= k < i ==> tiles[k] != Empty
      {
        if tiles[i] == Empty {
          break;
        } else if i == Cells - 1 {
          return Draw;
        }
      }
      return InProgress;
    }

    /**
     * A move on tile pos while the game is in progress: an empty tile
     * receives the mark of the player to move and the turn passes; then
     * the result code is recomputed.
     */
    method ApplyMove(pos: int)
      requires Valid() && 0 <= pos < Cells && gameOver == InProgress
      modifies this, tiles
      ensures Valid()
      ensures (tiles[..], isXTurn) == Move(old(tiles[..]), old(isXTurn), pos)
      ensures gameOver == Outcome(tiles[..])
      ensures old(tiles[pos]) != Empty ==> gameOver == old(gameOver)
    {
      ghost var s, xTurn := tiles[..], isXTurn;
      MovePreservesBalance(s, xTurn, pos);
      MoveKeepsSingleWinner(s, xTurn, pos);
      if tiles[pos] == Empty {
        if isXTurn {
          tiles[pos] := XValue;
          isXTurn := false;
        } else {
          tiles[pos] := OValue;
          isXTurn := true;
        }
      }
      assert (tiles[..], isXTurn) == Move(s, xTurn, pos);
      gameOver := IsGameOver();
    }

    /**
     * A mouse press at panel pixel (x, y): after a finished game it starts
     * a new one; otherwise a press on a tile is a move there, and a press
     * outside every tile changes nothing.
     */
    method MousePressed(x: int, y: int)
      requires Valid()
      modifies this, tiles
      ensures Valid()
      ensures old(gameOver) > 0 ==>
        tiles[..] == EmptyBoard() && isXTurn && gameOver == InProgress
      ensures old(gameOver) == InProgress ==>
        match ClickPos(x, y)
        case None =>
          tiles[..] == old(tiles[..]) && isXTurn == old(isXTurn) && gameOver == old(gameOver)
        case Some(p) =>
          (tiles[..], isXTurn) == Move(old(tiles[..]), old(isXTurn), p) &&
          gameOver == Outcome(tiles[..])
    {
      if gameOver > 0 {
        NewGame();
      } else {
        match ClickPos(x, y)
        case None =>
          return;
        case Some(clickPos) =>
          ApplyMove(clickPos);
      }
    }
  }

  /** Pressing the centre tile twice: the second press is ignored. */
  method RepeatedPressIsIgnored() {
    var game := new TicTacToe();
    var centre := Margin + TileSize + 1;
    game.MousePressed(centre, centre);
    game.MousePressed(centre, centre);
    assert game.tiles[4] == XValue && !game.isXTurn && game.gameOver == InProgress;
  }
}
