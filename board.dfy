/**
 * HexagonManager: the list of tiles on the board, the lookup by
 * identifier, the rotation of a selected cluster and the initial spawn.
 */
module Board {
  import opened Palette
  import opened Grid
  import opened Hexagon
  import opened ColorManager
  import opened Rotation
  import opened PairScan

  // -----------------------------------------------------------------------
  // Column-major order of the cells

  /** The cells of column x, bottom to top. */
  function Column(x: int, h: nat): (r: seq<Cell>)
    ensures |r| == h && forall y :: 0 <= y < h ==> r[y] == Cell(x, y)
  {
    seq(h, y requires 0 <= y < h => Cell(x, y))
  }

  lemma ColumnStep(x: int, y: nat)
    ensures Column(x, y + 1) == Column(x, y) + [Cell(x, y)]
  {
    assert forall k :: 0 <= k < y + 1 ==> Column(x, y + 1)[k] == (Column(x, y) + [Cell(x, y)])[k];
  }

  /** The cells of the first w columns, x outer and y inner. */
  function ColumnMajor(w: nat, h: nat): seq<Cell>
  {
    if w == 0 then [] else ColumnMajor(w - 1, h) + Column(w - 1, h)
  }

  lemma {:induction false} ColumnMajorLength(w: nat, h: nat)
    ensures |ColumnMajor(w, h)| == w * h
  {
    if w > 0 {
      ColumnMajorLength(w - 1, h);
    }
  }

  lemma {:induction false} ColumnMajorPrefix(x: nat, w: nat, h: nat)
    requires x <= w
    ensures ColumnMajor(x, h) <= ColumnMajor(w, h)
    decreases w - x
  {
    if x < w {
      ColumnMajorPrefix(x, w - 1, h);
    }
  }

  /** A column stopped at row y has produced a proper prefix of the order up to that column. */
  lemma PartialColumn(x: nat, y: nat, h: nat)
    requires y < h
    ensures ColumnMajor(x, h) + Column(x, y) < ColumnMajor(x + 1, h)
    ensures ColumnMajor(x + 1, h)[|ColumnMajor(x, h) + Column(x, y)|] == Cell(x, y)
  {
    assert Column(x, y) < Column(x, h);
    assert Column(x, h)[y] == Cell(x, y);
  }

  /** So a spawn stopped inside column x has produced a proper prefix of the full order. */
  lemma PartialColumnMajor(p: seq<Cell>, x: nat, w: nat, h: nat)
    requires x < w && p < ColumnMajor(x + 1, h)
    ensures p <= ColumnMajor(w, h) && p != ColumnMajor(w, h)
  {
    ColumnMajorPrefix(x + 1, w, h);
  }

  /** A column stopped at row y stopped at cell (x, y), the next one in the order up to column x. */
  lemma StoppedInCell(hexagonColors: seq<Color>, cs: seq<HexagonController>, x: nat, y: nat, h: nat)
    requires y < h && Identifiers(cs) == ColumnMajor(x, h) + Column(x, y)
    requires NoSuitableColor(hexagonColors, cs, Cell(x, y))
    ensures Identifiers(cs) < ColumnMajor(x + 1, h)
    ensures NoSuitableColor(hexagonColors, cs, ColumnMajor(x + 1, h)[|cs|])
  {
    PartialColumn(x, y, h);
  }

  /** A spawn stopped inside column x stopped short of the whole order, at the cell whose pick failed. */
  lemma StoppedInColumn(hexagonColors: seq<Color>, cs: seq<HexagonController>, x: nat, w: nat, h: nat)
    requires x < w && Identifiers(cs) < ColumnMajor(x + 1, h)
    requires NoSuitableColor(hexagonColors, cs, ColumnMajor(x + 1, h)[|cs|])
    ensures Identifiers(cs) <= ColumnMajor(w, h) && Identifiers(cs) != ColumnMajor(w, h)
    ensures |cs| < |ColumnMajor(w, h)| && NoSuitableColor(hexagonColors, cs, ColumnMajor(w, h)[|cs|])
  {
    PartialColumnMajor(Identifiers(cs), x, w, h);
    ColumnMajorPrefix(x + 1, w, h);
  }

  /** The order visits exactly the cells of the w by h rectangle... */
  lemma {:induction false} ColumnMajorCells(w: nat, h: nat)
    ensures forall c :: c in ColumnMajor(w, h) <==> 0 <= c.x < w && 0 <= c.y < h
  {
    if w > 0 {
      ColumnMajorCells(w - 1, h);
      forall c: Cell | 0 <= c.x < w && 0 <= c.y < h
        ensures c in ColumnMajor(w, h)
      {
        if c.x == w - 1 {
          assert Column(w - 1, h)[c.y] == c;
        }
      }
    }
  }

  /** ...and each of them once. */
  lemma {:induction false} ColumnMajorDistinct(w: nat, h: nat)
    ensures forall i, j :: 0 <= i < j < |ColumnMajor(w, h)| ==> ColumnMajor(w, h)[i] != ColumnMajor(w, h)[j]
  {
    if w > 0 {
      ColumnMajorDistinct(w - 1, h);
      ColumnMajorCells(w - 1, h);
      var prev := ColumnMajor(w - 1, h);
      forall i, j | 0 <= i < j < |ColumnMajor(w, h)|
        ensures ColumnMajor(w, h)[i] != ColumnMajor(w, h)[j]
      {
        if i < |prev| <= j {
          assert ColumnMajor(w, h)[i] in prev;
        }
      }
    }
  }

  lemma PrefixTransitive(a: seq<HexagonController>, b: seq<HexagonController>, c: seq<HexagonController>)
    requires a <= b && b <= c
    ensures a <= c
  {
    assert b[..|a|] == c[..|a|];
  }

  /** The identifiers of a list of tiles, in list order. */
  function Identifiers(cs: seq<HexagonController>): (r: seq<Cell>)
    reads cs
    ensures |r| == |cs| && forall i :: 0 <= i < |cs| ==> r[i] == cs[i].identifier
  {
    seq(|cs|, i requires 0 <= i < |cs| reads cs => cs[i].identifier)
  }

  lemma IdentifiersAppend(cs: seq<HexagonController>, t: HexagonController)
    ensures Identifiers(cs + [t]) == Identifiers(cs) + [t.identifier]
  {
    assert forall i :: 0 <= i < |cs| + 1 ==> Identifiers(cs + [t])[i] == (Identifiers(cs) + [t.identifier])[i];
  }

  /** Adding the tile of cell (x, y) extends the column-major prefix by one cell. */
  lemma SpawnStep(cs: seq<HexagonController>, t: HexagonController, x: nat, y: nat, h: nat)
    requires Identifiers(cs) == ColumnMajor(x, h) + Column(x, y)
    requires t.identifier == Cell(x, y)
    ensures Identifiers(cs + [t]) == ColumnMajor(x, h) + Column(x, y + 1)
  {
    IdentifiersAppend(cs, t);
    ColumnStep(x, y);
    assert ColumnMajor(x, h) + Column(x, y) + [Cell(x, y)] == ColumnMajor(x, h) + (Column(x, y) + [Cell(x, y)]);
  }

  function Positions(cs: seq<HexagonController>): (r: seq<Pos>)
    reads cs
    ensures |r| == |cs| && forall i :: 0 <= i < |cs| ==> r[i] == cs[i].position
  {
    seq(|cs|, i requires 0 <= i < |cs| reads cs => cs[i].position)
  }

  /** A tile as the spawn leaves it: a normal tile resting on the grid position of its cell. */
  predicate PlacedOn(grid: array2<Pos>, t: HexagonController)
    reads grid, t
  {
    && 0 <= t.identifier.x < grid.Length0 && 0 <= t.identifier.y < grid.Length1
    && t.position == grid[t.identifier.x, t.identifier.y]
    && t.kind == Normal
  }

  /**
   * What the spawn keeps true of the list, tile by tile in the order they
   * were added: each tile is new to the list, rests on the grid, and was
   * coloured against the tiles before it, which were the whole board then.
   */
  predicate SpawnedBoard(grid: array2<Pos>, hexagonColors: seq<Color>, cs: seq<HexagonController>)
    reads grid, cs
  {
    cs == [] ||
    (var earlier, t := cs[..|cs| - 1], cs[|cs| - 1];
     SpawnedBoard(grid, hexagonColors, earlier) && t !in earlier && PlacedOn(grid, t) && ColoredAgainst(hexagonColors, earlier, t))
  }

  /**
   * What a spawn of the whole grid leaves: the identifiers are a prefix of
   * column-major order, all of it exactly when `ok`; otherwise the next
   * cell's colour pick fails against the tiles placed; and the spawn
   * invariant holds.
   */
  predicate SpawnOutcome(grid: array2<Pos>, hexagonColors: seq<Color>, cs: seq<HexagonController>, ok: bool)
    reads grid, cs
  {
    && Identifiers(cs) <= ColumnMajor(grid.Length0, grid.Length1)
    && (ok <==> Identifiers(cs) == ColumnMajor(grid.Length0, grid.Length1))
    && (!ok ==> |cs| < |ColumnMajor(grid.Length0, grid.Length1)| &&
                NoSuitableColor(hexagonColors, cs, ColumnMajor(grid.Length0, grid.Length1)[|cs|]))
    && SpawnedBoard(grid, hexagonColors, cs)
  }

  /** The tile's colour is a palette entry outside the exclusion list of its cell on `board`. */
  predicate ColoredAgainst(hexagonColors: seq<Color>, board: seq<HexagonController>, t: HexagonController)
    reads board, t
  {
    t.color in hexagonColors && t.color !in ExcludedColorsAt(board, t.identifier)
  }

  /** The spawn invariant stated for one tile: it rests on the grid and was coloured against the tiles before it. */
  lemma {:induction false} SpawnedBoardAt(grid: array2<Pos>, hexagonColors: seq<Color>, cs: seq<HexagonController>, j: nat)
    requires SpawnedBoard(grid, hexagonColors, cs) && j < |cs|
    ensures PlacedOn(grid, cs[j]) && ColoredAgainst(hexagonColors, cs[..j], cs[j])
    decreases |cs|
  {
    var earlier := cs[..|cs| - 1];
    if j < |cs| - 1 {
      SpawnedBoardAt(grid, hexagonColors, earlier, j);
      assert earlier[..j] == cs[..j];
    } else {
      assert earlier == cs[..j];
    }
  }

  /** ...and it is none of the tiles before it. */
  lemma {:induction false} SpawnedBoardNew(grid: array2<Pos>, hexagonColors: seq<Color>, cs: seq<HexagonController>, j: nat)
    requires SpawnedBoard(grid, hexagonColors, cs) && j < |cs|
    ensures cs[j] !in cs[..j]
    decreases |cs|
  {
    var earlier := cs[..|cs| - 1];
    if j < |cs| - 1 {
      SpawnedBoardNew(grid, hexagonColors, earlier, j);
      assert earlier[..j] == cs[..j];
    } else {
      assert earlier == cs[..j];
    }
  }

  /** After a spawn, no tile appears twice in the list. */
  lemma SpawnedBoardDistinct(grid: array2<Pos>, hexagonColors: seq<Color>, cs: seq<HexagonController>)
    requires SpawnedBoard(grid, hexagonColors, cs)
    ensures forall i, j :: 0 <= i < j < |cs| ==> cs[i] != cs[j]
  {
    forall i, j | 0 <= i < j < |cs|
      ensures cs[i] != cs[j]
    {
      SpawnedBoardNew(grid, hexagonColors, cs, j);
      assert cs[i] in cs[..j];
    }
  }

  lemma SpawnedBoardExtend(grid: array2<Pos>, hexagonColors: seq<Color>, cs: seq<HexagonController>, t: HexagonController)
    requires SpawnedBoard(grid, hexagonColors, cs)
    requires t !in cs && PlacedOn(grid, t) && ColoredAgainst(hexagonColors, cs, t)
    ensures SpawnedBoard(grid, hexagonColors, cs + [t])
  {
    assert (cs + [t])[..|cs|] == cs;
  }

  // -----------------------------------------------------------------------
  // The spawned board has no match

  /** No two tiles of the list share an identifier. */
  predicate DistinctIdentifiers(cs: seq<HexagonController>)
    reads cs
  {
    forall i, j :: 0 <= i < j < |cs| ==> cs[i].identifier != cs[j].identifier
  }

  /** A list whose identifiers follow column-major order has no identifier twice. */
  lemma PrefixIdentifiersDistinct(cs: seq<HexagonController>, w: nat, h: nat)
    requires Identifiers(cs) <= ColumnMajor(w, h)
    ensures DistinctIdentifiers(cs)
  {
    ColumnMajorDistinct(w, h);
    forall i, j | 0 <= i < j < |cs|
      ensures cs[i].identifier != cs[j].identifier
    {
      assert Identifiers(cs)[i] == ColumnMajor(w, h)[i] && Identifiers(cs)[j] == ColumnMajor(w, h)[j];
    }
  }

  /** With distinct identifiers, every prefix holding tile k finds exactly tile k at its identifier. */
  lemma LookupUnique(cs: seq<HexagonController>, k: nat, m: nat)
    requires DistinctIdentifiers(cs) && k < m <= |cs|
    ensures Lookup(cs[..m], cs[k].identifier) == cs[k]
  {
    LookupFacts(cs[..m], cs[k].identifier);
    assert cs[..m][k] == cs[k];
  }

  /** Every tile of the list sits at the corner of no same-coloured triangle with two of its neighbours. */
  predicate MatchFree(cs: seq<HexagonController>)
    reads cs
  {
    forall j :: 0 <= j < |cs| ==> SameColorPairs(NeighborColors(cs, cs[j].identifier), cs[j].color, 6) == 0
  }

  /**
   * The corner of a triangle added last: when it was coloured, the other
   * two corners, p and q, were on the list in its clockwise pair (e, e + 1),
   * so its colour pick ruled out their common colour.
   */
  lemma LastCornerDiffers(hexagonColors: seq<Color>, cs: seq<HexagonController>, last: nat, p: nat, q: nat, e: nat)
    requires DistinctIdentifiers(cs)
    requires last < |cs| && p < last && q < last && e < 6
    requires ColoredAgainst(hexagonColors, cs[..last], cs[last])
    requires cs[p].identifier == Neighbor(cs[last].identifier, Clockwise[e])
    requires cs[q].identifier == Neighbor(cs[last].identifier, Clockwise[Next(e, 6)])
    ensures !(cs[p].color == cs[last].color && cs[q].color == cs[last].color)
  {
    var cell, c := cs[last].identifier, cs[last].color;
    NoMatchWhenNotExcluded(cs[..last], cell, c);
    SameColorPairsZero(NeighborColors(cs[..last], cell), c, 6);
    LookupUnique(cs, p, last);
    LookupUnique(cs, q, last);
    assert DirectionalNeighbors(cs[..last], cell)[e] == cs[p];
    assert DirectionalNeighbors(cs[..last], cell)[Next(e, 6)] == cs[q];
    assert !MatchingPair(NeighborColors(cs[..last], cell), c, e);
  }

  /** The case of NoMatchingPairAt where the tile in direction i was spawned last. */
  lemma FirstNeighborLast(grid: array2<Pos>, hexagonColors: seq<Color>, cs: seq<HexagonController>, j: nat, p: nat, q: nat, i: nat)
    requires SpawnedBoard(grid, hexagonColors, cs) && DistinctIdentifiers(cs)
    requires j < p < |cs| && q < p && i < 6
    requires cs[p].identifier == Neighbor(cs[j].identifier, Clockwise[i])
    requires cs[q].identifier == Neighbor(cs[j].identifier, Clockwise[(i + 1) % 6])
    ensures !(cs[q].color == cs[p].color && cs[j].color == cs[p].color)
  {
    TriangleCorners(cs[j].identifier, i);
    CyclicSteps(i);
    SpawnedBoardAt(grid, hexagonColors, cs, p);
    LastCornerDiffers(hexagonColors, cs, p, q, j, (i + 2) % 6);
  }

  /** The case of NoMatchingPairAt where the tile in direction i + 1 was spawned last. */
  lemma SecondNeighborLast(grid: array2<Pos>, hexagonColors: seq<Color>, cs: seq<HexagonController>, j: nat, p: nat, q: nat, i: nat)
    requires SpawnedBoard(grid, hexagonColors, cs) && DistinctIdentifiers(cs)
    requires j < q < |cs| && p < q && i < 6
    requires cs[p].identifier == Neighbor(cs[j].identifier, Clockwise[i])
    requires cs[q].identifier == Neighbor(cs[j].identifier, Clockwise[(i + 1) % 6])
    ensures !(cs[j].color == cs[q].color && cs[p].color == cs[q].color)
  {
    TriangleCorners(cs[j].identifier, i);
    CyclicSteps(i);
    SpawnedBoardAt(grid, hexagonColors, cs, q);
    LastCornerDiffers(hexagonColors, cs, q, j, p, (i + 4) % 6);
  }

  /**
   * Tile j and its neighbours in directions i and i + 1 do not all share
   * a colour: of the three corners, the one spawned last was coloured
   * against the other two.
   */
  lemma NoMatchingPairAt(grid: array2<Pos>, hexagonColors: seq<Color>, cs: seq<HexagonController>, j: nat, i: nat)
    requires SpawnedBoard(grid, hexagonColors, cs) && DistinctIdentifiers(cs) && j < |cs| && i < 6
    ensures !MatchingPair(NeighborColors(cs, cs[j].identifier), cs[j].color, i)
  {
    var cell := cs[j].identifier;
    var ns := DirectionalNeighbors(cs, cell);
    CyclicSteps(i);
    if ns[i] != null && ns[(i + 1) % 6] != null {
      var p :| 0 <= p < |cs| && cs[p] == ns[i];
      var q :| 0 <= q < |cs| && cs[q] == ns[(i + 1) % 6];
      TriangleDistinct(cell, i);
      assert p != j && q != j && p != q;
      if p < j && q < j {
        SpawnedBoardAt(grid, hexagonColors, cs, j);
        LastCornerDiffers(hexagonColors, cs, j, p, q, i);
      } else if j < p && q < p {
        FirstNeighborLast(grid, hexagonColors, cs, j, p, q, i);
      } else {
        SecondNeighborLast(grid, hexagonColors, cs, j, p, q, i);
      }
    }
  }

  /** So tile j is in no matching direction pair at all. */
  lemma NoMatchAt(grid: array2<Pos>, hexagonColors: seq<Color>, cs: seq<HexagonController>, j: nat)
    requires SpawnedBoard(grid, hexagonColors, cs) && DistinctIdentifiers(cs) && j < |cs|
    ensures SameColorPairs(NeighborColors(cs, cs[j].identifier), cs[j].color, 6) == 0
  {
    forall i | 0 <= i < 6
      ensures !MatchingPair(NeighborColors(cs, cs[j].identifier), cs[j].color, i)
    {
      NoMatchingPairAt(grid, hexagonColors, cs, j, i);
    }
    SameColorPairsZero(NeighborColors(cs, cs[j].identifier), cs[j].color, 6);
  }

  /**
   * The purpose of the exclusion scan: the spawned board, whole or cut
   * short, holds no same-coloured triangle, even though each tile was
   * coloured only against the tiles spawned before it.
   */
  lemma SpawnOutcomeNoMatch(grid: array2<Pos>, hexagonColors: seq<Color>, cs: seq<HexagonController>, ok: bool)
    requires SpawnOutcome(grid, hexagonColors, cs, ok)
    ensures MatchFree(cs)
  {
    PrefixIdentifiersDistinct(cs, grid.Length0, grid.Length1);
    forall j | 0 <= j < |cs|
      ensures SameColorPairs(NeighborColors(cs, cs[j].identifier), cs[j].color, 6) == 0
    {
      NoMatchAt(grid, hexagonColors, cs, j);
    }
  }

  class HexagonManager {
    var hexagonControllers: seq<HexagonController>
    /** The colour of the tile prefab before a suitable colour is applied. */
    const prefabColor: Color

    constructor (prefabColor: Color)
      ensures hexagonControllers == [] && this.prefabColor == prefabColor
    {
      hexagonControllers := [];
      this.prefabColor := prefabColor;
    }

    /** The first tile with the given identifier, or null. */
    function GetHexagonController(identifier: Cell): (r: HexagonController?)
      reads this, hexagonControllers
      ensures r != null ==> r in hexagonControllers && r.identifier == identifier
      ensures r == null <==> forall i :: 0 <= i < |hexagonControllers| ==> hexagonControllers[i].identifier != identifier
      ensures forall k :: (0 <= k < |hexagonControllers| && hexagonControllers[k].identifier == identifier
                           && forall j :: 0 <= j < k ==> hexagonControllers[j].identifier != identifier)
                          ==> r == hexagonControllers[k]
    {
      LookupFacts(hexagonControllers, identifier);
      Lookup(hexagonControllers, identifier)
    }

    /**
     * Moves each of three selected tiles to another one's position: tile
     * i to tile i + 1's, or, when the rotation is inverted, to tile i - 1's
     * (cyclically). Identifiers stay as they are. Any other number of
     * tiles leaves everything unchanged.
     *
     * The engine reads the targets from the tiles' current transforms,
     * which the movement animations change only on later frames, so every
     * target is an original position.
     */
    method RotateHexagons(controllers: seq<HexagonController>, clockwise: bool)
      requires |controllers| == 3 ==>
                 controllers[0] != controllers[1] && controllers[1] != controllers[2] && controllers[0] != controllers[2]
      modifies controllers
      ensures |controllers| != 3 ==> forall c :: c in controllers ==> c.position == old(c.position)
      ensures |controllers| == 3 ==>
                Positions(controllers)
                == Rotate(old(Positions(controllers)),
                          InvertRotation(clockwise, old(controllers[0].position.x), old(controllers[1].position.x)))
      ensures forall c :: c in controllers ==>
                c.identifier == old(c.identifier) && c.color == old(c.color) && c.kind == old(c.kind)
    {
      if |controllers| == 3 {
        var invertRotation := InvertRotation(clockwise, controllers[0].position.x, controllers[1].position.x);
        var origin := [controllers[0].position, controllers[1].position, controllers[2].position];
        assert origin == old(Positions(controllers));
        if invertRotation {
          MoveToPrevious(controllers, origin);
        } else {
          MoveToNext(controllers, origin);
        }
        assert Positions(controllers) == Rotate(origin, invertRotation);
      }
    }

    /** The inverted branch of RotateHexagons: walks the tiles from the last to the first, moving tile i onto tile i - 1's original position (tile 0 onto tile 2's). */
    method MoveToPrevious(controllers: seq<HexagonController>, origin: seq<Pos>)
      requires |controllers| == 3 && |origin| == 3
      requires controllers[0] != controllers[1] && controllers[1] != controllers[2] && controllers[0] != controllers[2]
      modifies controllers
      ensures forall j :: 0 <= j < 3 ==> controllers[j].position == origin[Target(j, 3, true)]
      ensures forall c :: c in controllers ==>
                c.identifier == old(c.identifier) && c.color == old(c.color) && c.kind == old(c.kind)
    {
      var i := |controllers| - 1;
      while i >= 0
        invariant -1 <= i <= 2
        invariant forall j :: i < j < 3 ==> controllers[j].position == origin[Target(j, 3, true)]
        invariant forall c :: c in controllers ==>
                    c.identifier == old(c.identifier) && c.color == old(c.color) && c.kind == old(c.kind)
      {
        var controller := controllers[i];
        var targetPos := if i == 0 then origin[2] else origin[i - 1];
        controller.MoveHexagonToPosition(targetPos);
        i := i - 1;
      }
    }

    /** The forward branch of RotateHexagons: walks the tiles from the first to the last, moving tile i onto tile i + 1's original position (tile 2 onto tile 0's). */
    method MoveToNext(controllers: seq<HexagonController>, origin: seq<Pos>)
      requires |controllers| == 3 && |origin| == 3
      requires controllers[0] != controllers[1] && controllers[1] != controllers[2] && controllers[0] != controllers[2]
      modifies controllers
      ensures forall j :: 0 <= j < 3 ==> controllers[j].position == origin[Target(j, 3, false)]
      ensures forall c :: c in controllers ==>
                c.identifier == old(c.identifier) && c.color == old(c.color) && c.kind == old(c.kind)
    {
      for i := 0 to |controllers|
        invariant forall j :: 0 <= j < i ==> controllers[j].position == origin[Target(j, 3, false)]
        invariant forall c :: c in controllers ==>
                    c.identifier == old(c.identifier) && c.color == old(c.color) && c.kind == old(c.kind)
      {
        var controller := controllers[i];
        var targetPos := if i == |controllers| - 1 then origin[0] else origin[i + 1];
        controller.MoveHexagonToPosition(targetPos);
      }
    }

    /**
     * Fills the board column by column (x outer, y inner). Each new tile
     * gets identifier (x, y), rests on grid[x, y], and is coloured against
     * the tiles already in the list before it is added. A failing colour
     * pick ends the spawn with the tiles added so far (`ok == false`); the
     * cell it stopped at is the next one in column-major order, and its
     * pick failed against those tiles. With more than six distinct colours
     * in the palette the pick never fails. The board it leaves holds no
     * same-coloured triangle.
     */
    method SpawnInitialHexagons(grid: array2<Pos>, hexagonColors: seq<Color>) returns (ok: bool)
      modifies this
      ensures SpawnOutcome(grid, hexagonColors, hexagonControllers, ok)
      ensures |set c | c in hexagonColors| > 6 ==> ok
      ensures MatchFree(hexagonControllers)
    {
      var controllers;
      ok, controllers := SpawnColumns(grid, hexagonColors);
      hexagonControllers := controllers;
      SpawnOutcomeNoMatch(grid, hexagonColors, hexagonControllers, ok);
    }

    /** The outer loop of the spawn: columns left to right, stopping at the first failed colour pick. */
    method SpawnColumns(grid: array2<Pos>, hexagonColors: seq<Color>) returns (ok: bool, controllers: seq<HexagonController>)
      ensures Identifiers(controllers) <= ColumnMajor(grid.Length0, grid.Length1)
      ensures ok <==> Identifiers(controllers) == ColumnMajor(grid.Length0, grid.Length1)
      ensures !ok ==> |controllers| < |ColumnMajor(grid.Length0, grid.Length1)| &&
                      NoSuitableColor(hexagonColors, controllers, ColumnMajor(grid.Length0, grid.Length1)[|controllers|])
      ensures |set c | c in hexagonColors| > 6 ==> ok
      ensures SpawnedBoard(grid, hexagonColors, controllers)
      ensures SpawnOutcome(grid, hexagonColors, controllers, ok)
    {
      controllers := [];
      ok := true;
      for x := 0 to grid.Length0
        invariant ok && Identifiers(controllers) == ColumnMajor(x, grid.Length1)
        invariant SpawnedBoard(grid, hexagonColors, controllers)
      {
        ok, controllers := SpawnColumn(grid, hexagonColors, x, controllers);
        if !ok {
          StoppedInColumn(hexagonColors, controllers, x, grid.Length0, grid.Length1);
          RichPaletteAlwaysSuits(hexagonColors, controllers, ColumnMajor(grid.Length0, grid.Length1)[|controllers|]);
          return;
        }
      }
    }

    /**
     * The inner loop of the spawn: the tiles of column x, bottom to top,
     * appended to `controllers`, each coloured against the list so far.
     */
    method SpawnColumn(grid: array2<Pos>, hexagonColors: seq<Color>, x: nat, controllers: seq<HexagonController>)
      returns (ok: bool, result: seq<HexagonController>)
      requires x < grid.Length0
      requires Identifiers(controllers) == ColumnMajor(x, grid.Length1)
      requires SpawnedBoard(grid, hexagonColors, controllers)
      ensures ok ==> Identifiers(result) == ColumnMajor(x + 1, grid.Length1)
      ensures !ok ==> Identifiers(result) < ColumnMajor(x + 1, grid.Length1)
      ensures !ok ==> NoSuitableColor(hexagonColors, result, ColumnMajor(x + 1, grid.Length1)[|result|])
      ensures controllers <= result
      ensures SpawnedBoard(grid, hexagonColors, result)
    {
      ok, result := true, controllers;
      for y := 0 to grid.Length1
        invariant Identifiers(result) == ColumnMajor(x, grid.Length1) + Column(x, y)
        invariant controllers <= result
        invariant SpawnedBoard(grid, hexagonColors, result)
      {
        var applied;
        ghost var before := result;
        applied, result := SpawnCell(grid, hexagonColors, x, y, result);
        PrefixTransitive(controllers, before, result);
        if !applied {
          StoppedInCell(hexagonColors, result, x, y, grid.Length1);
          ok := false;
          break;
        }
      }
    }

    /** One pass of the inner loop: the tile of cell (x, y), added to the list when it could be coloured. */
    method SpawnCell(grid: array2<Pos>, hexagonColors: seq<Color>, x: nat, y: nat, controllers: seq<HexagonController>)
      returns (applied: bool, result: seq<HexagonController>)
      requires x < grid.Length0 && y < grid.Length1
      requires Identifiers(controllers) == ColumnMajor(x, grid.Length1) + Column(x, y)
      requires SpawnedBoard(grid, hexagonColors, controllers)
      ensures applied ==> Identifiers(result) == ColumnMajor(x, grid.Length1) + Column(x, y + 1)
      ensures applied ==> |result| == |controllers| + 1 && controllers <= result
      ensures !applied ==> result == controllers
      ensures !applied ==> NoSuitableColor(hexagonColors, controllers, Cell(x, y))
      ensures SpawnedBoard(grid, hexagonColors, result)
    {
      var controller;
      controller, applied := NewHexagon(grid, hexagonColors, x, y, controllers);
      result := controllers;
      if applied {
        SpawnedBoardExtend(grid, hexagonColors, controllers, controller);
        SpawnStep(controllers, controller, x, y, grid.Length1);
        result := controllers + [controller];
      }
    }

    /**
     * Instantiates a tile above grid[x, y], gives it identifier (x, y),
     * moves it to its place and colours it against `board`.
     */
    method NewHexagon(grid: array2<Pos>, hexagonColors: seq<Color>, x: nat, y: nat, board: seq<HexagonController>)
      returns (controller: HexagonController, applied: bool)
      requires x < grid.Length0 && y < grid.Length1
      ensures fresh(controller)
      ensures controller.identifier == Cell(x, y) && PlacedOn(grid, controller)
      ensures applied <==> !NoSuitableColor(hexagonColors, board, Cell(x, y))
      ensures applied ==> ColoredAgainst(hexagonColors, board, controller)
    {
      controller := PlaceHexagon(grid, x, y);
      applied := ApplySuitableColor(hexagonColors, controller, board);
    }

    /** A new tile with identifier (x, y), instantiated above the board and then moved onto grid[x, y]. */
    method PlaceHexagon(grid: array2<Pos>, x: nat, y: nat) returns (controller: HexagonController)
      requires x < grid.Length0 && y < grid.Length1
      ensures fresh(controller)
      ensures controller.identifier == Cell(x, y) && PlacedOn(grid, controller)
    {
      var position := grid[x, y];
      controller := new HexagonController(Pos(position.x, position.y + 15.0), prefabColor, Normal);
      controller.SetIdentifier(Cell(x, y));
      controller.MoveHexagonToPosition(position);
    }
  }
}
