/**
 * GridManager: the world positions of the board cells.
 *
 * Columns are 0.75 apart; rows are 0.866 apart and every odd column is
 * shifted down by half a row (0.433). Positions are exact reals here.
 */
module Grid {

  datatype Pos = Pos(x: real, y: real)

  /** The position GenerateHexagonalGrid stores for cell (x, y). */
  function CellPosition(x: int, y: int): Pos
  {
    Pos(x as real * 0.75, y as real * 0.866 - (if x % 2 != 0 then 0.433 else 0.0))
  }

  lemma CellPositionX(x: int, y: int)
    ensures CellPosition(x, y).x == 0.75 * x as real
  {
  }

  lemma CellPositionY(x: int, y: int)
    ensures x % 2 == 0 ==> CellPosition(x, y).y == 0.866 * y as real
    ensures x % 2 != 0 ==> CellPosition(x, y).y == 0.866 * y as real - 0.433
  {
  }

  /** Positions grow with the column, and with the row inside one column. */
  lemma CellPositionMonotonic(x: int, y: int, x': int, y': int)
    ensures x < x' ==> CellPosition(x, y).x < CellPosition(x', y').x
    ensures y < y' ==> CellPosition(x, y).y < CellPosition(x, y').y
  {
  }

  class GridManager {
    const gridWidth: nat
    const gridHeight: nat
    var hexagonGrid: array2<Pos>

    constructor (gridWidth: nat, gridHeight: nat)
      ensures this.gridWidth == gridWidth && this.gridHeight == gridHeight
      ensures hexagonGrid.Length0 == 0 && hexagonGrid.Length1 == 0
    {
      this.gridWidth := gridWidth;
      this.gridHeight := gridHeight;
      hexagonGrid := new Pos[0, 0];
    }

    /** Allocates the grid array and fills it column by column. */
    method GenerateHexagonalGrid()
      modifies this
      ensures fresh(hexagonGrid)
      ensures hexagonGrid.Length0 == gridWidth && hexagonGrid.Length1 == gridHeight
      ensures forall x, y :: 0 <= x < gridWidth && 0 <= y < gridHeight ==> hexagonGrid[x, y] == CellPosition(x, y)
    {
      var grid := new Pos[gridWidth, gridHeight];
      for x := 0 to gridWidth
        invariant forall i, j :: 0 <= i < x && 0 <= j < gridHeight ==> grid[i, j] == CellPosition(i, j)
      {
        for y := 0 to gridHeight
          invariant forall i, j :: 0 <= i < x && 0 <= j < gridHeight ==> grid[i, j] == CellPosition(i, j)
          invariant forall j :: 0 <= j < y ==> grid[x, j] == CellPosition(x, j)
        {
          var position := Pos(x as real * 0.75, y as real * 0.866);
          if x % 2 != 0 {
            position := position.(y := position.y - 0.433);
          }
          grid[x, y] := position;
        }
      }
      hexagonGrid := grid;
    }
  }
}
