/**
 * BombController: a tile of kind `Bomb` that clears every tile of its
 * colour, and the move counter that ends the game.
 */
module Bomb {
  import opened Palette
  import opened Hexagon

  /** The counter a bomb starts with. */
  const InitialMoves: int := 7

  // -----------------------------------------------------------------------
  // The tiles a bomb destroys

  /** The `Where` filter: the tiles of `board` whose colour compares equal to `color`, in board order. */
  function SameColored(board: seq<HexagonController>, color: Color): (r: seq<HexagonController>)
    reads board
    ensures |r| <= |board|
  {
    if board == [] then []
    else
      var last := board[|board| - 1];
      SameColored(board[..|board| - 1], color) + (if CompareColors(last.color, color) then [last] else [])
  }

  lemma {:induction false} SameColoredMembers(board: seq<HexagonController>, color: Color)
    ensures forall t :: t in SameColored(board, color) ==> t in board && t.color == color
    ensures forall t :: t in board && t.color == color ==> t in SameColored(board, color)
  {
    if board != [] {
      var init, last := board[..|board| - 1], board[|board| - 1];
      SameColoredMembers(init, color);
      assert board == init + [last];
    }
  }

  /** The filter keeps every copy of a tile of that colour and no copy of any other tile. */
  lemma {:induction false} SameColoredCount(board: seq<HexagonController>, color: Color, t: HexagonController)
    ensures multiset(SameColored(board, color))[t] == if t.color == color then multiset(board)[t] else 0
  {
    if board != [] {
      var init, last := board[..|board| - 1], board[|board| - 1];
      SameColoredCount(init, color, t);
      assert board == init + [last];
    }
  }

  /**
   * GetControllersToDestroy: the tiles of the board that have the bomb's
   * colour, followed by the bomb itself.
   */
  function GetControllersToDestroy(bomb: HexagonController, board: seq<HexagonController>): (r: seq<HexagonController>)
    reads bomb, board
    ensures 1 <= |r| <= |board| + 1 && r[|r| - 1] == bomb
  {
    SameColored(board, bomb.color) + [bomb]
  }

  /** The result holds the bomb and the board tiles of its colour, and nothing else. */
  lemma ControllersToDestroyMembers(bomb: HexagonController, board: seq<HexagonController>)
    ensures forall t :: t in GetControllersToDestroy(bomb, board) ==> t == bomb || (t in board && t.color == bomb.color)
    ensures forall t :: t == bomb || (t in board && t.color == bomb.color) ==> t in GetControllersToDestroy(bomb, board)
    ensures forall t :: t in GetControllersToDestroy(bomb, board) ==> t.color == bomb.color
  {
    SameColoredMembers(board, bomb.color);
  }

  /** A bomb on the board matches its own colour and is appended as well: it is listed once more than it occurs. */
  lemma BombListedTwice(bomb: HexagonController, board: seq<HexagonController>)
    requires bomb in board
    ensures multiset(GetControllersToDestroy(bomb, board))[bomb] == multiset(board)[bomb] + 1 >= 2
  {
    SameColoredCount(board, bomb.color, bomb);
  }

  /** The board with every tile of `destroyed` taken out, in board order. */
  function Remaining(board: seq<HexagonController>, destroyed: seq<HexagonController>): (r: seq<HexagonController>)
    ensures |r| <= |board|
  {
    if board == [] then []
    else
      var last := board[|board| - 1];
      Remaining(board[..|board| - 1], destroyed) + (if last in destroyed then [] else [last])
  }

  lemma {:induction false} RemainingMembers(board: seq<HexagonController>, destroyed: seq<HexagonController>)
    ensures forall t :: t in Remaining(board, destroyed) ==> t in board && t !in destroyed
    ensures forall t :: t in board && t !in destroyed ==> t in Remaining(board, destroyed)
  {
    if board != [] {
      var init, last := board[..|board| - 1], board[|board| - 1];
      RemainingMembers(init, destroyed);
      assert board == init + [last];
    }
  }

  /** Destroying what the bomb returns leaves no tile of the bomb's colour, and keeps every other tile. */
  lemma DetonationClearsColor(bomb: HexagonController, board: seq<HexagonController>)
    ensures forall t :: t in Remaining(board, GetControllersToDestroy(bomb, board)) ==> t.color != bomb.color
    ensures forall t :: t in board && t.color != bomb.color && t != bomb ==>
              t in Remaining(board, GetControllersToDestroy(bomb, board))
  {
    ControllersToDestroyMembers(bomb, board);
    RemainingMembers(board, GetControllersToDestroy(bomb, board));
  }

  // -----------------------------------------------------------------------
  // The move counter

  /** Start: the counter is set to its initial value. */
  method Start(bomb: HexagonController)
    requires bomb.kind.Bomb?
    modifies bomb
    ensures bomb.kind == Bomb(InitialMoves)
    ensures bomb.identifier == old(bomb.identifier) && bomb.position == old(bomb.position) && bomb.color == old(bomb.color)
  {
    bomb.kind := Bomb(InitialMoves);
  }

  /**
   * The game-over signals of `calls` successive ReduceCounter calls on a
   * counter at `movesLeft`: call k signals when the counter has dropped to
   * zero or below.
   */
  function Countdown(movesLeft: int, calls: nat): (r: seq<bool>)
    ensures |r| == calls
    decreases calls
  {
    if calls == 0 then [] else [movesLeft - 1 <= 0] + Countdown(movesLeft - 1, calls - 1)
  }

  /** Call k (from 0) signals game over exactly when k + 1 decrements have brought the counter to zero or below. */
  lemma {:induction false} CountdownAt(movesLeft: int, calls: nat, k: nat)
    requires k < calls
    ensures Countdown(movesLeft, calls)[k] <==> movesLeft - (k + 1) <= 0
    decreases k
  {
    if k > 0 {
      CountdownAt(movesLeft - 1, calls - 1, k - 1);
    }
  }

  /** From the initial counter, the first six moves pass and the seventh and every later one signal game over. */
  lemma SeventhMoveEndsGame(calls: nat)
    ensures forall k :: 0 <= k < calls ==> (Countdown(InitialMoves, calls)[k] <==> k >= 6)
  {
    forall k | 0 <= k < calls
      ensures Countdown(InitialMoves, calls)[k] <==> k >= 6
    {
      CountdownAt(InitialMoves, calls, k);
    }
  }

  /**
   * ReduceCounter, called once per move: the counter drops by one and the
   * game is over once it is zero or below.
   */
  method ReduceCounter(bomb: HexagonController) returns (gameOver: bool)
    requires bomb.kind.Bomb?
    modifies bomb
    ensures bomb.kind == Bomb(old(bomb.kind.movesLeft) - 1)
    ensures gameOver <==> bomb.kind.movesLeft <= 0
    ensures gameOver == Countdown(old(bomb.kind.movesLeft), 1)[0]
    ensures bomb.identifier == old(bomb.identifier) && bomb.position == old(bomb.position) && bomb.color == old(bomb.color)
  {
    bomb.kind := Bomb(bomb.kind.movesLeft - 1);
    gameOver := bomb.kind.movesLeft <= 0;
  }
}
