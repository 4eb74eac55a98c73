/**
 * HexagonController: a tile of the board, its offset-hex adjacency, and
 * the queries it makes against the list of tiles on the board.
 *
 * The board is the list `HexagonManager.HexagonControllers`; the queries
 * take it as the parameter `board`.
 */
module Hexagon {
  import opened Wrappers
  import opened Palette
  import opened Grid
  import opened PairScan

  // -----------------------------------------------------------------------
  // Coordinates and directions

  /** The six directions, in the order of the enumeration: clockwise from Above. */
  datatype Direction = Above | AboveRight | BelowRight | Below | BelowLeft | AboveLeft

  const Clockwise: seq<Direction> := [Above, AboveRight, BelowRight, Below, BelowLeft, AboveLeft]

  /** The position of a direction in the clockwise order. */
  function IndexOf(d: Direction): (i: nat)
    ensures i < 6 && Clockwise[i] == d
  {
    match d
    case Above => 0
    case AboveRight => 1
    case BelowRight => 2
    case Below => 3
    case BelowLeft => 4
    case AboveLeft => 5
  }

  /** A cell identifier (column x, row y); `Plus` is vector addition. */
  datatype Cell = Cell(x: int, y: int)
  {
    function Plus(delta: Cell): Cell
    {
      Cell(x + delta.x, y + delta.y)
    }
  }

  /**
   * The engine's test `x % 2 != 0`. Its remainder truncates toward zero,
   * Dafny's is Euclidean, but both are non-zero exactly for odd x.
   */
  predicate IsOddColumn(x: int)
  {
    x % 2 != 0
  }

  /** The identifier offset of a direction, seen from a tile in the given column. */
  function ConvertDirectionToIdentifier(column: int, direction: Direction): Cell
  {
    match direction
    case Above => Cell(0, 1)
    case AboveLeft => if IsOddColumn(column) then Cell(-1, 0) else Cell(-1, 1)
    case AboveRight => if IsOddColumn(column) then Cell(1, 0) else Cell(1, 1)
    case Below => Cell(0, -1)
    case BelowLeft => if IsOddColumn(column) then Cell(-1, -1) else Cell(-1, 0)
    case BelowRight => if IsOddColumn(column) then Cell(1, -1) else Cell(1, 0)
  }

  /** `Identifier + ConvertDirectionToIdentifier(direction)`. */
  function Neighbor(c: Cell, d: Direction): Cell
  {
    c.Plus(ConvertDirectionToIdentifier(c.x, d))
  }

  /** The direction half a turn away. */
  function Opposite(d: Direction): (o: Direction)
    ensures IndexOf(o) == (IndexOf(d) + 3) % 6
  {
    match d
    case Above => Below
    case AboveRight => BelowLeft
    case BelowRight => AboveLeft
    case Below => Above
    case BelowLeft => AboveRight
    case AboveLeft => BelowRight
  }

  /** Straight up and straight down do not depend on the column. */
  lemma VerticalOffsets(column: int)
    ensures ConvertDirectionToIdentifier(column, Above) == Cell(0, 1)
    ensures ConvertDirectionToIdentifier(column, Below) == Cell(0, -1)
  {
  }

  /** The parity table of the four slanted directions. */
  lemma SlantedOffsets(column: int)
    ensures IsOddColumn(column) ==>
      && ConvertDirectionToIdentifier(column, AboveLeft) == Cell(-1, 0)
      && ConvertDirectionToIdentifier(column, AboveRight) == Cell(1, 0)
      && ConvertDirectionToIdentifier(column, BelowLeft) == Cell(-1, -1)
      && ConvertDirectionToIdentifier(column, BelowRight) == Cell(1, -1)
    ensures !IsOddColumn(column) ==>
      && ConvertDirectionToIdentifier(column, AboveLeft) == Cell(-1, 1)
      && ConvertDirectionToIdentifier(column, AboveRight) == Cell(1, 1)
      && ConvertDirectionToIdentifier(column, BelowLeft) == Cell(-1, 0)
      && ConvertDirectionToIdentifier(column, BelowRight) == Cell(1, 0)
  {
  }

  /** No direction leads back to the tile itself. */
  lemma OffsetNeverZero(c: Cell, d: Direction)
    ensures ConvertDirectionToIdentifier(c.x, d) != Cell(0, 0)
    ensures Neighbor(c, d) != c
  {
  }

  /** Stepping in a direction and then in the opposite one returns to the start. */
  lemma StepBack(c: Cell, d: Direction)
    ensures Neighbor(Neighbor(c, d), Opposite(d)) == c
  {
    assert IsOddColumn(c.x + 1) == !IsOddColumn(c.x);
    assert IsOddColumn(c.x - 1) == !IsOddColumn(c.x);
  }

  /**
   * The neighbours in two consecutive directions are neighbours of each
   * other: from the neighbour in direction i, the one in direction i + 1
   * lies two steps further clockwise. A clockwise pair and the tile form a
   * triangle of mutually adjacent cells.
   */
  lemma ConsecutiveNeighborsAdjacent(c: Cell, i: nat)
    requires i < 6
    ensures Neighbor(Neighbor(c, Clockwise[i]), Clockwise[(i + 2) % 6]) == Neighbor(c, Clockwise[(i + 1) % 6])
  {
    assert IsOddColumn(c.x + 1) == !IsOddColumn(c.x);
    assert IsOddColumn(c.x - 1) == !IsOddColumn(c.x);
  }

  lemma OppositeClockwise(i: nat)
    requires i < 6
    ensures Opposite(Clockwise[i]) == Clockwise[(i + 3) % 6]
  {
  }

  /**
   * A tile and its neighbours in a clockwise pair (i, i + 1) form a
   * triangle, and each corner sees the other two as a clockwise pair: the
   * neighbour in direction i sees the neighbour in direction i + 1 and the
   * tile in directions i + 2 and i + 3; the neighbour in direction i + 1
   * sees the tile and the neighbour in direction i in directions i + 4 and
   * i + 5.
   */
  lemma TriangleCorners(c: Cell, i: nat)
    requires i < 6
    ensures Neighbor(Neighbor(c, Clockwise[i]), Clockwise[(i + 2) % 6]) == Neighbor(c, Clockwise[(i + 1) % 6])
    ensures Neighbor(Neighbor(c, Clockwise[i]), Clockwise[(i + 3) % 6]) == c
    ensures Neighbor(Neighbor(c, Clockwise[(i + 1) % 6]), Clockwise[(i + 4) % 6]) == c
    ensures Neighbor(Neighbor(c, Clockwise[(i + 1) % 6]), Clockwise[(i + 5) % 6]) == Neighbor(c, Clockwise[i])
  {
    var j, k := (i + 1) % 6, (i + 2) % 6;
    CyclicSteps(i);
    ConsecutiveNeighborsAdjacent(c, i);
    StepBack(c, Clockwise[i]);
    OppositeClockwise(i);
    StepBack(c, Clockwise[j]);
    OppositeClockwise(j);
    StepBack(Neighbor(c, Clockwise[i]), Clockwise[k]);
    OppositeClockwise(k);
  }

  /** Steps round the six directions, as the triangle's corners take them. */
  lemma CyclicSteps(i: nat)
    requires i < 6
    ensures Next(i, 6) == (i + 1) % 6
    ensures Next((i + 2) % 6, 6) == (i + 3) % 6 && Next((i + 4) % 6, 6) == (i + 5) % 6
    ensures ((i + 1) % 6 + 3) % 6 == (i + 4) % 6 && ((i + 2) % 6 + 3) % 6 == (i + 5) % 6
  {
  }

  /** The three corners of such a triangle are three different cells. */
  lemma TriangleDistinct(c: Cell, i: nat)
    requires i < 6
    ensures Neighbor(c, Clockwise[i]) != c && Neighbor(c, Clockwise[(i + 1) % 6]) != c
    ensures Neighbor(c, Clockwise[i]) != Neighbor(c, Clockwise[(i + 1) % 6])
  {
    OffsetNeverZero(c, Clockwise[i]);
    OffsetNeverZero(c, Clockwise[(i + 1) % 6]);
  }

  // -----------------------------------------------------------------------
  // Tiles

  /** A normal tile, or a bomb with its move counter (BombController). */
  datatype Kind = Normal | Bomb(movesLeft: int)

  class HexagonController {
    var identifier: Cell
    /** Where the tile rests once its current movement animation has finished. */
    var position: Pos
    var color: Color
    var kind: Kind

    /** Instantiating a prefab: the identifier starts at (0, 0). */
    constructor (position: Pos, color: Color, kind: Kind)
      ensures identifier == Cell(0, 0)
      ensures this.position == position && this.color == color && this.kind == kind
    {
      identifier := Cell(0, 0);
      this.position := position;
      this.color := color;
      this.kind := kind;
    }

    method SetIdentifier(identifier: Cell)
      modifies this
      ensures this.identifier == identifier
      ensures position == old(position) && color == old(color) && kind == old(kind)
    {
      this.identifier := identifier;
    }

    /**
     * The identifier changes at once; the position is where the
     * animation ends.
     */
    method MoveHexagonTo(position: Pos, newIdentifier: Cell)
      modifies this
      ensures identifier == newIdentifier && this.position == position
      ensures color == old(color) && kind == old(kind)
    {
      identifier := newIdentifier;
      this.position := position;
    }

    /** The two-argument call of the manager: a movement that keeps the identifier. */
    method MoveHexagonToPosition(position: Pos)
      modifies this
      ensures this.position == position
      ensures identifier == old(identifier) && color == old(color) && kind == old(kind)
    {
      this.position := position;
    }

    /** ApplyColor: the tile's material (or, for a bomb, sprite) takes the colour. */
    method ApplyColor(color: Color)
      modifies this
      ensures this.color == color
      ensures identifier == old(identifier) && position == old(position) && kind == old(kind)
    {
      this.color := color;
    }

    /** The first tile of the board whose identifier is the neighbour cell in `direction`. */
    function FindNeighborhoodController(board: seq<HexagonController>, direction: Direction): (r: HexagonController?)
      reads this, board
      ensures r != null ==> r in board && r.identifier == Neighbor(identifier, direction)
      ensures r == null <==> forall i :: 0 <= i < |board| ==> board[i].identifier != Neighbor(identifier, direction)
      ensures forall k :: (0 <= k < |board| && board[k].identifier == Neighbor(identifier, direction)
                           && forall j :: 0 <= j < k ==> board[j].identifier != Neighbor(identifier, direction))
                          ==> r == board[k]
    {
      LookupFacts(board, Neighbor(identifier, direction));
      Lookup(board, Neighbor(identifier, direction))
    }

    /** A tile at row 0 rests on the floor; any other one needs a tile straight below. */
    function DoesHaveHexagonBelow(board: seq<HexagonController>): (r: bool)
      reads this, board
      ensures r <==> identifier.y == 0
                     || exists i :: 0 <= i < |board| && board[i].identifier == Cell(identifier.x, identifier.y - 1)
    {
      if identifier.y == 0 then true
      else FindNeighborhoodController(board, Below) != null
    }

    /**
     * Moves the tile one row down, unless that row would be negative.
     * `positionToMove` stands for the grid lookup of the target position.
     */
    method MoveHexagonDown(positionToMove: Cell -> Pos)
      modifies this
      ensures old(identifier.y) - 1 < 0 ==> identifier == old(identifier) && position == old(position)
      ensures old(identifier.y) - 1 >= 0 ==>
                identifier == Cell(old(identifier.x), old(identifier.y) - 1) && position == positionToMove(identifier)
      ensures color == old(color) && kind == old(kind)
    {
      var identifierBelow := identifier.Plus(ConvertDirectionToIdentifier(identifier.x, Below));
      if identifierBelow.y < 0 {
        return;
      }
      var target := positionToMove(identifierBelow);
      MoveHexagonTo(target, identifierBelow);
    }

    /** The existing neighbours, clockwise from Above. */
    method FindAllNeighborhoodControllers(board: seq<HexagonController>) returns (neighborhoods: seq<HexagonController>)
      ensures neighborhoods == Neighborhood(board, identifier)
      ensures |neighborhoods| <= 6
      ensures forall k :: 0 <= k < |neighborhoods| ==>
                neighborhoods[k] in board && exists d :: neighborhoods[k].identifier == Neighbor(identifier, d)
      ensures forall d :: FindNeighborhoodController(board, d) != null ==> FindNeighborhoodController(board, d) in neighborhoods
    {
      var around := DirectionalNeighbors(board, identifier);
      neighborhoods := [];
      for i := 0 to 6
        invariant neighborhoods == NonNull(around[..i])
      {
        var controller := FindNeighborhoodController(board, Clockwise[i]);
        assert around[..i + 1][..i] == around[..i];
        if controller != null {
          neighborhoods := neighborhoods + [controller];
        }
      }
      assert around[..6] == around;
      NonNullMembers(around);
      forall k | 0 <= k < |neighborhoods|
        ensures exists d :: neighborhoods[k].identifier == Neighbor(identifier, d)
      {
        var i :| 0 <= i < 6 && around[i] == neighborhoods[k];
        assert neighborhoods[k].identifier == Neighbor(identifier, Clockwise[i]);
      }
      forall d | FindNeighborhoodController(board, d) != null
        ensures FindNeighborhoodController(board, d) in neighborhoods
      {
        assert around[IndexOf(d)] == FindNeighborhoodController(board, d);
      }
    }

    /**
     * The colours of consecutive existing neighbours (last paired with
     * first) that are equal.
     */
    method GetColorsToExclude(board: seq<HexagonController>) returns (colorsToExclude: seq<Color>)
      ensures colorsToExclude == ExcludedColorsAt(board, identifier)
      ensures |colorsToExclude| <= 6
      ensures forall c :: c in colorsToExclude ==> c in ColorsOf(Neighborhood(board, identifier))
    {
      var neighborhoods := FindAllNeighborhoodControllers(board);
      ghost var cs := ColorsOf(neighborhoods);
      colorsToExclude := [];
      for i := 0 to |neighborhoods|
        invariant colorsToExclude == ExcludedUpTo(cs, i)
      {
        var first := neighborhoods[i];
        var second := if i == |neighborhoods| - 1 then neighborhoods[0] else neighborhoods[i + 1];
        assert first.color == cs[i] && second.color == cs[Next(i, |cs|)];
        if CompareColors(first.color, second.color) {
          colorsToExclude := colorsToExclude + [first.color];
        }
      }
      ColorsToExcludeFacts(cs);
    }

    /**
     * For every clockwise direction pair whose two tiles exist and share
     * this tile's colour, both tiles; then this tile. Nothing is
     * deduplicated.
     */
    method GetAdjacentNeighborsWithSameColor(board: seq<HexagonController>) returns (matches: seq<HexagonController>)
      ensures matches == PairMatches(DirectionalNeighbors(board, identifier), color, 6) + [this]
      ensures |matches| == 1 + 2 * SameColorPairs(NeighborColors(board, identifier), color, 6)
      ensures |matches| % 2 == 1
      ensures matches[|matches| - 1] == this
      ensures forall k :: 0 <= k < |matches| - 1 ==> matches[k] in board && matches[k].color == color
    {
      ghost var around := DirectionalNeighbors(board, identifier);
      matches := [];
      for i := 0 to 6
        invariant matches == PairMatches(around, color, i)
      {
        var firstDir := Clockwise[i];
        var secondDir := if i == 5 then Clockwise[0] else Clockwise[i + 1];
        // HexagonManager.GetHexagonController
        var firstController := Lookup(board, identifier.Plus(ConvertDirectionToIdentifier(identifier.x, firstDir)));
        var secondController := Lookup(board, identifier.Plus(ConvertDirectionToIdentifier(identifier.x, secondDir)));
        assert secondDir == Clockwise[Next(i, 6)];
        assert firstController == around[i] && secondController == around[Next(i, 6)];
        if firstController != null && secondController != null
           && CompareColors3(firstController.color, secondController.color, color)
        {
          matches := matches + [firstController, secondController];
        }
      }
      AdjacentMatchesFacts(board, identifier, color);
      matches := matches + [this];
    }
  }

  // -----------------------------------------------------------------------
  // Board queries

  /** `FirstOrDefault(controller => controller.Identifier == id)`. */
  function Lookup(board: seq<HexagonController>, id: Cell): HexagonController?
    reads board
    decreases |board|
  {
    if board == [] then null
    else if board[0].identifier == id then board[0]
    else Lookup(board[1..], id)
  }

  /** Lookup finds a tile with the identifier when there is one, and the first such tile. */
  lemma {:induction false} LookupFacts(board: seq<HexagonController>, id: Cell)
    ensures Lookup(board, id) != null ==> Lookup(board, id) in board && Lookup(board, id).identifier == id
    ensures Lookup(board, id) == null <==> forall i :: 0 <= i < |board| ==> board[i].identifier != id
    ensures forall k :: (0 <= k < |board| && board[k].identifier == id
                         && forall j :: 0 <= j < k ==> board[j].identifier != id) ==> Lookup(board, id) == board[k]
    decreases |board|
  {
    if board != [] && board[0].identifier != id {
      LookupFacts(board[1..], id);
      forall k | 0 <= k < |board| && board[k].identifier == id
        ensures k > 0 && board[1..][k - 1] == board[k]
      {
      }
    }
  }

  /** The tiles found in the six directions, clockwise from Above; `null` where none. */
  function DirectionalNeighbors(board: seq<HexagonController>, cell: Cell): (r: seq<HexagonController?>)
    reads board
    ensures |r| == 6
    ensures forall i :: 0 <= i < 6 ==> r[i] == Lookup(board, Neighbor(cell, Clockwise[i]))
    ensures forall i :: 0 <= i < 6 && r[i] != null ==> r[i] in board && r[i].identifier == Neighbor(cell, Clockwise[i])
  {
    LookupNeighbors(board, cell);
    seq(6, i requires 0 <= i < 6 reads board => Lookup(board, Neighbor(cell, Clockwise[i])))
  }

  lemma LookupNeighbors(board: seq<HexagonController>, cell: Cell)
    ensures forall i :: 0 <= i < 6 && Lookup(board, Neighbor(cell, Clockwise[i])) != null ==>
              Lookup(board, Neighbor(cell, Clockwise[i])) in board
              && Lookup(board, Neighbor(cell, Clockwise[i])).identifier == Neighbor(cell, Clockwise[i])
  {
    forall i | 0 <= i < 6
      ensures Lookup(board, Neighbor(cell, Clockwise[i])) != null ==>
                Lookup(board, Neighbor(cell, Clockwise[i])) in board
                && Lookup(board, Neighbor(cell, Clockwise[i])).identifier == Neighbor(cell, Clockwise[i])
    {
      LookupFacts(board, Neighbor(cell, Clockwise[i]));
    }
  }

  /** The non-null entries, in order. */
  function NonNull(ns: seq<HexagonController?>): (r: seq<HexagonController>)
    ensures |r| <= |ns|
  {
    if ns == [] then []
    else NonNull(ns[..|ns| - 1]) + (if ns[|ns| - 1] != null then [ns[|ns| - 1]] else [])
  }

  /** NonNull keeps exactly the non-null entries. */
  lemma {:induction false} NonNullMembers(ns: seq<HexagonController?>)
    ensures forall i :: 0 <= i < |NonNull(ns)| ==> NonNull(ns)[i] in ns
    ensures forall i :: 0 <= i < |ns| && ns[i] != null ==> ns[i] in NonNull(ns)
  {
    if ns != [] {
      var ns' := ns[..|ns| - 1];
      NonNullMembers(ns');
      forall i | 0 <= i < |ns'| && ns'[i] != null
        ensures ns[i] in NonNull(ns)
      {
        assert ns[i] == ns'[i];
      }
      forall i | 0 <= i < |NonNull(ns')|
        ensures NonNull(ns')[i] in ns
      {
        assert NonNull(ns')[i] in ns';
      }
    }
  }

  /** FindAllNeighborhoodControllers as a function of the board and the cell. */
  function Neighborhood(board: seq<HexagonController>, cell: Cell): (r: seq<HexagonController>)
    reads board
    ensures |r| <= 6 && forall i :: 0 <= i < |r| ==> r[i] in board
  {
    NonNullMembers(DirectionalNeighbors(board, cell));
    NonNull(DirectionalNeighbors(board, cell))
  }

  function ColorsOf(cs: seq<HexagonController>): (r: seq<Color>)
    reads cs
    ensures |r| == |cs| && forall i :: 0 <= i < |cs| ==> r[i] == cs[i].color
  {
    seq(|cs|, i requires 0 <= i < |cs| reads cs => cs[i].color)
  }

  /** The colour found in each direction, or None. */
  function OptionalColors(ns: seq<HexagonController?>): (r: seq<Option<Color>>)
    reads ns
    ensures |r| == |ns|
    ensures forall i :: 0 <= i < |ns| ==> r[i] == if ns[i] == null then None else Some(ns[i].color)
  {
    seq(|ns|, i requires 0 <= i < |ns| reads ns => if ns[i] == null then None else Some(ns[i].color))
  }

  /** The colours GetAdjacentNeighborsWithSameColor sees, clockwise from Above. */
  function NeighborColors(board: seq<HexagonController>, cell: Cell): seq<Option<Color>>
    reads board
  {
    OptionalColors(DirectionalNeighbors(board, cell))
  }

  /**
   * The tiles the direction scan adds for its first k direction pairs:
   * both tiles of every pair (i, i + 1), last wrapping to first, that
   * exist and share colour `c`, in scan order.
   */
  function PairMatches(ns: seq<HexagonController?>, c: Color, k: nat): (r: seq<HexagonController>)
    requires k <= |ns|
    reads ns
    decreases k
  {
    if k == 0 then []
    else
      var first, second := ns[k - 1], ns[Next(k - 1, |ns|)];
      PairMatches(ns, c, k - 1)
      + (if first != null && second != null && CompareColors3(first.color, second.color, c) then [first, second] else [])
  }

  /** Two tiles for every matching direction pair. */
  lemma {:induction false} PairMatchesCount(ns: seq<HexagonController?>, c: Color, k: nat)
    requires k <= |ns|
    ensures |PairMatches(ns, c, k)| == 2 * SameColorPairs(OptionalColors(ns), c, k)
  {
    if k > 0 {
      PairMatchesCount(ns, c, k - 1);
    }
  }

  /** Every added tile has colour `c` and is one of the scanned tiles. */
  lemma {:induction false} PairMatchesMembers(ns: seq<HexagonController?>, c: Color, k: nat)
    requires k <= |ns|
    ensures forall t :: t in PairMatches(ns, c, k) ==> t.color == c && exists i :: 0 <= i < |ns| && ns[i] == t
  {
    if k > 0 {
      PairMatchesMembers(ns, c, k - 1);
    }
  }

  /** Both tiles of every matching pair among the first k are added. */
  lemma {:induction false} PairMatchesComplete(ns: seq<HexagonController?>, c: Color, k: nat)
    requires k <= |ns|
    ensures forall i :: 0 <= i < k && MatchingPair(OptionalColors(ns), c, i) ==>
              ns[i] in PairMatches(ns, c, k) && ns[Next(i, |ns|)] in PairMatches(ns, c, k)
  {
    if k > 0 {
      PairMatchesComplete(ns, c, k - 1);
    }
  }

  /**
   * Around a cell: the added tiles are board tiles of colour `c`, each the
   * tile found in some direction, and both tiles of every matching
   * direction pair are among them.
   */
  lemma AdjacentMatchesFacts(board: seq<HexagonController>, cell: Cell, c: Color)
    ensures |PairMatches(DirectionalNeighbors(board, cell), c, 6)| == 2 * SameColorPairs(NeighborColors(board, cell), c, 6)
    ensures forall t :: t in PairMatches(DirectionalNeighbors(board, cell), c, 6) ==>
              t in board && t.color == c && exists d :: t == Lookup(board, Neighbor(cell, d))
    ensures forall i :: 0 <= i < 6 && MatchingPair(NeighborColors(board, cell), c, i) ==>
              Lookup(board, Neighbor(cell, Clockwise[i])) in PairMatches(DirectionalNeighbors(board, cell), c, 6)
              && Lookup(board, Neighbor(cell, Clockwise[Next(i, 6)])) in PairMatches(DirectionalNeighbors(board, cell), c, 6)
  {
    var ns := DirectionalNeighbors(board, cell);
    PairMatchesCount(ns, c, 6);
    PairMatchesMembers(ns, c, 6);
    PairMatchesComplete(ns, c, 6);
    forall t | t in PairMatches(ns, c, 6)
      ensures t in board && exists d :: t == Lookup(board, Neighbor(cell, d))
    {
      var i :| 0 <= i < 6 && ns[i] == t;
      assert t == Lookup(board, Neighbor(cell, Clockwise[i]));
    }
  }

  /** GetColorsToExclude as a function of the board and the cell. */
  function ExcludedColorsAt(board: seq<HexagonController>, cell: Cell): seq<Color>
    reads board
  {
    ColorsToExclude(ColorsOf(Neighborhood(board, cell)))
  }

  /** An exclusion list holds at most one colour per neighbour, so at most six. */
  lemma ExclusionBound(board: seq<HexagonController>, cell: Cell)
    ensures |ExcludedColorsAt(board, cell)| <= 6
  {
    ColorsToExcludeFacts(ColorsOf(Neighborhood(board, cell)));
  }

  lemma {:induction false} ColorsOfNonNull(ns: seq<HexagonController?>)
    ensures ColorsOf(NonNull(ns)) == Somes(OptionalColors(ns))
  {
    if ns != [] {
      var ns' := ns[..|ns| - 1];
      ColorsOfNonNull(ns');
      assert OptionalColors(ns)[..|ns| - 1] == OptionalColors(ns');
    }
  }

  /**
   * A tile coloured with a colour its exclusion list does not hold is in
   * no same-coloured triangle with the tiles already on the board.
   */
  lemma NoMatchWhenNotExcluded(board: seq<HexagonController>, cell: Cell, c: Color)
    requires c !in ExcludedColorsAt(board, cell)
    ensures SameColorPairs(NeighborColors(board, cell), c, 6) == 0
  {
    ColorsOfNonNull(DirectionalNeighbors(board, cell));
    NoPreMatch(NeighborColors(board, cell), c);
  }
}
