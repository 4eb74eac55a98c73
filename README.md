# Hex tile-matching board, modelled in Dafny

This project models the board logic of a hexagonal tile-matching game.
The board is a grid of hexagonal tiles in offset columns: every odd
column sits half a row lower. Each tile has an identifier `(x, y)`, a
position, a colour and a kind (a normal tile or a bomb with a move
counter). The modelled parts are:

- the six directions and their parity-dependent identifier offsets;
- the neighbour queries of a tile;
- the two clockwise pair scans: the exclusion list used when a tile is
  coloured, and the same-colour matches around a tile;
- the palette filter that picks a new tile's colour;
- the rotation of a selected cluster of three tiles;
- the column-major initial spawn;
- the bomb's clearing list and move counter;
- the score;
- the grid of world positions.

Modules, one per concern:

| module | file | what it holds |
|---|---|---|
| `Wrappers` | wrappers.dfy | `Option` |
| `Palette` | palette.dfy | colours, `CompareColors`, the suitable-colour filter |
| `Grid` | grid.dfy | `GridManager` and the cell position formula |
| `PairScan` | pairscan.dfy | the two cyclic pair scans, on colours |
| `Hexagon` | hexagon.dfy | directions, offsets, `HexagonController` and its board queries |
| `ColorManager` | colormanager.dfy | `ApplySuitableColor` |
| `Rotation` | rotation.dfy | the 3-cycle of positions and its algebra |
| `Board` | board.dfy | `HexagonManager`: lookup, rotation, initial spawn |
| `Bomb` | bomb.dfy | the bomb's clearing list and counter |
| `Score` | score.dfy | `ScoreManager` |

Tiles are objects (`class HexagonController`), because the engine updates
their identifier, position and colour in place. The board is the
manager's list `hexagonControllers: seq<HexagonController>`. The queries
of a tile receive that list as the parameter `board`, where the engine
reads it from the manager's singleton.

Conventions that the code fixes:

- Colours are compared exactly. The channel tolerance of 0.01 becomes
  equality.
- The three-argument colour comparison means that all three colours are
  equal.
- Rotation moves positions, not identifiers. The manager calls the
  two-argument form of `MoveHexagonTo`, which is modelled as
  `MoveHexagonToPosition`.
- The random pick of a colour is an arbitrary choice from the suitable
  list (`:|`).
- A colour pick from an empty suitable list is the failure outcome
  `ok == false`; in the engine it throws. The spawn stops at that tile,
  as the exception ends the spawn coroutine.
- The rotation targets are the tiles' positions before the rotation. The
  engine reads them from the transforms, and the movement animations
  change those only on later frames.
- A bomb is a tile of kind `Bomb(movesLeft)`. The counter lives in the
  kind.

## Model

| member | source | states |
|---|---|---|
| Palette.CompareColors | Assets/_Assets/Scripts/Managers/ColorManager.cs:49-55 | the definition: all four channels agree exactly; CompareColorsIsEquality and CompareColorsReflexiveSymmetric state its properties |
| Palette.CompareColors3 | Assets/_Assets/Scripts/Controllers/HexagonController.cs:58 | the definition of the three-colour call; CompareColors3IsAllEqual states its meaning |
| Palette.IsExcluded | Assets/_Assets/Scripts/Managers/ColorManager.cs:29-32 | the definition: the inner loop's `areEqual` flag, some excluded colour compares equal; CollectSuitableColors proves the loop computes it |
| Palette.CompareColorsIsEquality | Assets/_Assets/Scripts/Managers/ColorManager.cs:49-55 | two colours compare equal exactly when they are the same colour |
| Palette.CompareColorsReflexiveSymmetric | Assets/_Assets/Scripts/Managers/ColorManager.cs:49-55 | the comparison is reflexive and symmetric |
| Palette.CompareColors3IsAllEqual | Assets/_Assets/Scripts/Controllers/HexagonController.cs:58 | the three-colour comparison holds exactly when all three colours are equal |
| Palette.SuitableColors | Assets/_Assets/Scripts/Managers/ColorManager.cs:27-36 | the suitable list is never longer than the palette |
| Palette.SuitableColorsMembers | Assets/_Assets/Scripts/Managers/ColorManager.cs:27-36 | a colour is suitable exactly when it is in the palette and equals no excluded colour |
| Palette.SuitableColorsConcat | Assets/_Assets/Scripts/Managers/ColorManager.cs:27-36 | the filter distributes over concatenation of palettes, so it keeps palette order |
| Palette.SuitableColorsNoExclusion | Assets/_Assets/Scripts/Managers/ColorManager.cs:23-36 | with nothing excluded, the suitable list is the whole palette |
| Palette.SuitableColorsEmpty | Assets/_Assets/Scripts/Managers/ColorManager.cs:39 | the suitable list is empty exactly when every palette colour is excluded |
| Palette.PaletteNeverExhausted | Assets/_Assets/Scripts/Managers/ColorManager.cs:39 | a palette with more distinct colours than exclusions always leaves a colour to draw |
| Palette.CollectSuitableColors | Assets/_Assets/Scripts/Managers/ColorManager.cs:23-36 | the nested loop with its `areEqual` flag builds exactly the filtered palette |
| ColorManager.NoSuitableColor | Assets/_Assets/Scripts/Managers/ColorManager.cs:39 | the definition: every palette colour is on the cell's exclusion list, so the draw indexes an empty list |
| ColorManager.RichPaletteAlwaysSuits | Assets/_Assets/Scripts/Managers/ColorManager.cs:23-39 | a palette of more than six distinct colours always leaves a colour for any cell on any board |
| ColorManager.ApplySuitableColor | Assets/_Assets/Scripts/Managers/ColorManager.cs:20-41 | the call succeeds exactly when the suitable list is non-empty; the new colour is then a palette colour that is not excluded; on failure the colour is kept; only the colour changes |
| Grid.CellPosition | Assets/_Assets/Scripts/Managers/GridManager.cs:34-37 | the definition of the position formula; CellPositionX, CellPositionY and CellPositionMonotonic state its properties |
| Grid.CellPositionX | Assets/_Assets/Scripts/Managers/GridManager.cs:34 | a cell's x-position is 0.75·x, whatever the row and the parity |
| Grid.CellPositionY | Assets/_Assets/Scripts/Managers/GridManager.cs:34-37 | a cell's y-position is 0.866·y in even columns and 0.866·y − 0.433 in odd ones |
| Grid.CellPositionMonotonic | Assets/_Assets/Scripts/Managers/GridManager.cs:34-37 | x grows strictly with the column, and y grows strictly with the row within a column |
| Grid.GridManager.constructor | Assets/_Assets/Scripts/Managers/GridManager.cs:13 | the grid size is set and no grid has been generated |
| Grid.GridManager.GenerateHexagonalGrid | Assets/_Assets/Scripts/Managers/GridManager.cs:27-41 | a new array of the grid size, every cell holding its position formula |
| Hexagon.IsOddColumn | Assets/_Assets/Scripts/Controllers/HexagonController.cs:159-168 | the definition: the column parity test `x % 2 != 0`, which the truncating remainder of the engine and Euclidean `%` agree on for every column, negative ones included |
| Hexagon.ConvertDirectionToIdentifier | Assets/_Assets/Scripts/Controllers/HexagonController.cs:153-172 | the definition: the parity-dependent offset table; its properties are in the rows VerticalOffsets, SlantedOffsets, OffsetNeverZero, StepBack and ConsecutiveNeighborsAdjacent |
| Hexagon.Neighbor | Assets/_Assets/Scripts/Controllers/HexagonController.cs:115 | the definition: `Identifier + ConvertDirectionToIdentifier(direction)`; StepBack, OffsetNeverZero and ConsecutiveNeighborsAdjacent state its properties |
| Hexagon.IndexOf | Assets/_Assets/Scripts/Controllers/HexagonController.cs:92-95 | every direction has its place in the clockwise order from Above |
| Hexagon.Opposite | Assets/_Assets/Scripts/Controllers/HexagonController.cs:92-95 | the opposite direction is three places further in the clockwise order |
| Hexagon.VerticalOffsets | Assets/_Assets/Scripts/Controllers/HexagonController.cs:157-164 | Above is (0, 1) and Below is (0, −1) in every column |
| Hexagon.SlantedOffsets | Assets/_Assets/Scripts/Controllers/HexagonController.cs:159-168 | the four slanted offsets of odd columns and of even columns |
| Hexagon.OffsetNeverZero | Assets/_Assets/Scripts/Controllers/HexagonController.cs:153-172 | no direction has the zero offset, and no cell is its own neighbour in any direction |
| Hexagon.StepBack | Assets/_Assets/Scripts/Controllers/HexagonController.cs:153-172 | a step in a direction and then a step in the opposite direction return to the start |
| Hexagon.ConsecutiveNeighborsAdjacent | Assets/_Assets/Scripts/Controllers/HexagonController.cs:153-172 | the neighbours in consecutive clockwise directions are themselves adjacent |
| Hexagon.OppositeClockwise | Assets/_Assets/Scripts/Controllers/HexagonController.cs:153-172 | the opposite of the direction at clockwise index i is the direction at index i + 3 (mod 6) |
| Hexagon.TriangleCorners | Assets/_Assets/Scripts/Controllers/HexagonController.cs:153-172 | a tile and its neighbours in a clockwise pair (i, i + 1) form a triangle in which each corner sees the other two as a clockwise pair: from the neighbour in direction i they lie in directions i + 2 and i + 3, from the neighbour in direction i + 1 in directions i + 4 and i + 5; proved from StepBack and ConsecutiveNeighborsAdjacent |
| Hexagon.TriangleDistinct | Assets/_Assets/Scripts/Controllers/HexagonController.cs:153-172 | the three corners of such a triangle are different cells |
| Hexagon.HexagonController.constructor | Assets/_Assets/Scripts/Controllers/HexagonController.cs:10 | a new tile holds the given position, colour and kind, with the default identifier (0, 0) |
| Hexagon.HexagonController.SetIdentifier | Assets/_Assets/Scripts/Controllers/HexagonController.cs:121-122 | the identifier is replaced and nothing else changes |
| Hexagon.HexagonController.MoveHexagonTo | Assets/_Assets/Scripts/Controllers/HexagonController.cs:130-134 | the identifier changes at once and the tile comes to rest at the target; colour and kind are kept |
| Hexagon.HexagonController.MoveHexagonToPosition | Assets/_Assets/Scripts/Managers/HexagonManager.cs:45 | the two-argument move changes the position only |
| Hexagon.HexagonController.ApplyColor | Assets/_Assets/Scripts/Controllers/HexagonController.cs:140-141 | the colour is replaced and nothing else changes |
| Hexagon.HexagonController.FindNeighborhoodController | Assets/_Assets/Scripts/Controllers/HexagonController.cs:113-115 | a tile found on the board holds the neighbour identifier; null exactly when no board tile holds it; otherwise it is the first board tile holding it |
| Hexagon.HexagonController.DoesHaveHexagonBelow | Assets/_Assets/Scripts/Controllers/HexagonController.cs:73-77 | true exactly at row 0 or when a board tile holds (x, y − 1) |
| Hexagon.HexagonController.MoveHexagonDown | Assets/_Assets/Scripts/Controllers/HexagonController.cs:82-89 | at row 0 nothing changes; otherwise the identifier becomes (x, y − 1) and the tile moves to that cell's position |
| Hexagon.HexagonController.FindAllNeighborhoodControllers | Assets/_Assets/Scripts/Controllers/HexagonController.cs:96-108 | the existing neighbours in clockwise order: at most six, all on the board, each in some direction, and every one that exists is included |
| Hexagon.HexagonController.GetColorsToExclude | Assets/_Assets/Scripts/Controllers/HexagonController.cs:21-36 | the result is the cyclic pair scan of the neighbour colours; at most six entries, each a neighbour's colour |
| Hexagon.HexagonController.GetAdjacentNeighborsWithSameColor | Assets/_Assets/Scripts/Controllers/HexagonController.cs:42-67 | the result is `PairMatches` of the six clockwise neighbours, followed by the tile itself; so its length is 1 + 2·(matching direction pairs), which is odd, and every other entry is a board tile of its colour |
| Hexagon.PairMatches | Assets/_Assets/Scripts/Controllers/HexagonController.cs:47-62 | the definition: both tiles of each direction pair (i, i + 1 mod 6) that exist and share the colour, in scan order, with no deduplication; its properties are in the next four rows |
| Hexagon.PairMatchesCount | Assets/_Assets/Scripts/Controllers/HexagonController.cs:57-62 | two tiles are added for every matching direction pair |
| Hexagon.PairMatchesMembers | Assets/_Assets/Scripts/Controllers/HexagonController.cs:57-62 | every added tile has the colour and is one of the scanned neighbours |
| Hexagon.PairMatchesComplete | Assets/_Assets/Scripts/Controllers/HexagonController.cs:57-62 | both tiles of every matching pair are added |
| Hexagon.AdjacentMatchesFacts | Assets/_Assets/Scripts/Controllers/HexagonController.cs:42-67 | around a cell, the added tiles are board tiles of the colour, each the tile found in some direction; both tiles of every matching pair are among them; there are twice as many as matching pairs |
| Hexagon.Lookup | Assets/_Assets/Scripts/Managers/HexagonManager.cs:16-17 | the definition: `FirstOrDefault` by identifier, reading the board from the front; LookupFacts states its properties |
| Hexagon.LookupFacts | Assets/_Assets/Scripts/Controllers/HexagonController.cs:113-115 | `FirstOrDefault` by identifier: a tile found has that identifier, null exactly when there is none, and the first match is returned |
| Hexagon.DirectionalNeighbors | Assets/_Assets/Scripts/Controllers/HexagonController.cs:99-103 | six lookups in clockwise order, each null or a board tile with the neighbour identifier of its direction |
| Hexagon.NonNull | Assets/_Assets/Scripts/Controllers/HexagonController.cs:104 | dropping the missing neighbours never lengthens the list |
| Hexagon.NonNullMembers | Assets/_Assets/Scripts/Controllers/HexagonController.cs:101-105 | every kept entry was a lookup result, and every found tile is kept |
| Hexagon.Neighborhood | Assets/_Assets/Scripts/Controllers/HexagonController.cs:96-108 | at most six neighbours, all on the board |
| Hexagon.NoMatchWhenNotExcluded | Assets/_Assets/Scripts/Managers/ColorManager.cs:20-40 | a tile whose colour is not excluded has no two consecutive neighbours sharing its colour |
| PairScan.Next | Assets/_Assets/Scripts/Controllers/HexagonController.cs:29 | the definition: the wrap-around successor `i == Count - 1 ? 0 : i + 1` of both pair scans (also line 50); CyclicSteps, ExcludedUpToMembers and ConsecutivePresentArePaired use it |
| PairScan.ColorsToExclude | Assets/_Assets/Scripts/Controllers/HexagonController.cs:21-36 | the definition: the exclusion scan over the neighbour colours; ColorsToExcludeFacts and ExcludedUpToMembers state its properties |
| Hexagon.ExclusionBound | Assets/_Assets/Scripts/Controllers/HexagonController.cs:21-36 | an exclusion list never holds more than six colours |
| Hexagon.ExcludedColorsAt | Assets/_Assets/Scripts/Controllers/HexagonController.cs:21-36 | the definition: the exclusion scan over the colours of a cell's neighbourhood; GetColorsToExclude is proved to compute it and NoMatchWhenNotExcluded states what it guarantees |
| PairScan.SameColorPairs | Assets/_Assets/Scripts/Controllers/HexagonController.cs:47-62 | the definition: the number of matching direction pairs among the first k; SameColorPairsZero and NoPreMatch state its properties |
| PairScan.ExcludedUpTo | Assets/_Assets/Scripts/Controllers/HexagonController.cs:26-33 | after k steps the exclusion list holds at most k colours |
| PairScan.ExcludedUpToMembers | Assets/_Assets/Scripts/Controllers/HexagonController.cs:26-33 | a colour is excluded after k steps exactly when one of the first k pairs, last wrapping to first, compares equal with that colour |
| PairScan.MatchingPair | Assets/_Assets/Scripts/Controllers/HexagonController.cs:57-58 | the definition: both tiles of direction pair i exist and share colour c; SameColorPairsZero, PairMatchesMembers and PairMatchesComplete state what it selects |
| PairScan.ColorsToExcludeFacts | Assets/_Assets/Scripts/Controllers/HexagonController.cs:24-35 | no more entries than neighbours, each a neighbour colour, and a single neighbour excludes its own colour |
| PairScan.ConsecutivePresentArePaired | Assets/_Assets/Scripts/Controllers/HexagonController.cs:26-29 | two existing neighbours in consecutive directions are also consecutive in the neighbour list, so the exclusion scan compares them |
| PairScan.SameColorPairsZero | Assets/_Assets/Scripts/Controllers/HexagonController.cs:47-62 | no direction pair in the first k matches exactly when the match count is zero |
| PairScan.NoPreMatch | Assets/_Assets/Scripts/Controllers/HexagonController.cs:21-67 | a colour that the exclusion scan did not exclude has no matching direction pair |
| Rotation.InvertRotation | Assets/_Assets/Scripts/Managers/HexagonManager.cs:32-34 | the definition of the invert rule; InvertRotationCases states it as a case split |
| Rotation.Target | Assets/_Assets/Scripts/Managers/HexagonManager.cs:38-59 | the index whose original position a tile moves to is in range |
| Rotation.Rotate | Assets/_Assets/Scripts/Managers/HexagonManager.cs:38-59 | tile i ends at the original position of tile (i + 1) mod 3, or of (i − 1) mod 3 when inverted |
| Rotation.InvertRotationCases | Assets/_Assets/Scripts/Managers/HexagonManager.cs:32-34 | inverted exactly when clockwise with x₁ < x₀, or counterclockwise with x₁ > x₀ |
| Rotation.TargetInjective | Assets/_Assets/Scripts/Managers/HexagonManager.cs:38-59 | distinct tiles get distinct targets |
| Rotation.RotateIsPermutation | Assets/_Assets/Scripts/Managers/HexagonManager.cs:38-59 | either direction only permutes the original positions |
| Rotation.RotateInverse | Assets/_Assets/Scripts/Managers/HexagonManager.cs:38-59 | the two directions undo each other |
| Rotation.RotateThrice | Assets/_Assets/Scripts/Managers/HexagonManager.cs:38-59 | three applications of the same cycle restore a cluster of three; RotateHexagons recomputes which cycle to use on each call, so three clockwise turns need not apply the same one |
| Board.Column | Assets/_Assets/Scripts/Managers/HexagonManager.cs:78 | the inner loop visits (x, 0) … (x, h − 1) |
| Board.ColumnMajor | Assets/_Assets/Scripts/Managers/HexagonManager.cs:77-78 | the definition: the cells in the order the nested loops visit them, x outer and y inner; ColumnMajorLength, ColumnMajorCells, ColumnMajorDistinct and ColumnMajorPrefix state its properties |
| Board.SpawnedBoard | Assets/_Assets/Scripts/Managers/HexagonManager.cs:87-91 | the definition: the spawn invariant, tile by tile in list order; SpawnedBoardAt, SpawnedBoardNew, SpawnedBoardDistinct and SpawnedBoardExtend state its properties |
| Board.ColoredAgainst | Assets/_Assets/Scripts/Managers/HexagonManager.cs:89 | the definition: a tile's colour is a palette colour missing from its cell's exclusion list on a given board; used by SpawnedBoard, NewHexagon and SpawnedBoardAt |
| Board.ColumnMajorPrefix | Assets/_Assets/Scripts/Managers/HexagonManager.cs:77-78 | the order up to column x is a prefix of the order up to any later column |
| Board.PartialColumn | Assets/_Assets/Scripts/Managers/HexagonManager.cs:77-78 | stopping column x at row y gives a strict prefix of the order up to column x + 1, whose next cell is (x, y) |
| Board.PartialColumnMajor | Assets/_Assets/Scripts/Managers/HexagonManager.cs:77-78 | a spawn stopped inside column x has produced a strict prefix of the full order |
| Board.PlacedOn | Assets/_Assets/Scripts/Managers/HexagonManager.cs:81-88 | the definition: a normal tile whose identifier is a grid cell and whose position is that cell's grid position |
| Board.ColumnMajorLength | Assets/_Assets/Scripts/Managers/HexagonManager.cs:77-78 | the nested loops visit w·h cells |
| Board.ColumnMajorCells | Assets/_Assets/Scripts/Managers/HexagonManager.cs:77-78 | the visited cells are exactly the cells of the grid |
| Board.ColumnMajorDistinct | Assets/_Assets/Scripts/Managers/HexagonManager.cs:77-78 | no cell is visited twice |
| Board.StoppedInCell | Assets/_Assets/Scripts/Managers/HexagonManager.cs:78-89 | a column stopped at row y has produced a strict prefix of the order, and the cell whose pick failed is the next one in it |
| Board.StoppedInColumn | Assets/_Assets/Scripts/Managers/HexagonManager.cs:77-89 | a spawn stopped in column x stopped short of the whole order, at the cell whose pick failed |
| Board.SpawnOutcome | Assets/_Assets/Scripts/Managers/HexagonManager.cs:71-95 | the definition: what the spawn of the whole grid guarantees, as listed for SpawnInitialHexagons |
| Board.SpawnStep | Assets/_Assets/Scripts/Managers/HexagonManager.cs:87-91 | adding the tile with identifier (x, y) extends the identifiers by one step of column-major order |
| Board.SpawnedBoardAt | Assets/_Assets/Scripts/Managers/HexagonManager.cs:81-91 | every spawned tile rests on its grid cell and was coloured against the tiles added before it |
| Board.SpawnedBoardNew | Assets/_Assets/Scripts/Managers/HexagonManager.cs:83-91 | no spawned tile occurs earlier in the list |
| Board.SpawnedBoardDistinct | Assets/_Assets/Scripts/Managers/HexagonManager.cs:83-91 | the spawned tiles are pairwise distinct objects |
| Board.SpawnedBoardExtend | Assets/_Assets/Scripts/Managers/HexagonManager.cs:89-91 | adding a new placed tile, coloured against the list, keeps the spawn invariant |
| Board.DistinctIdentifiers | Assets/_Assets/Scripts/Managers/HexagonManager.cs:77-91 | the definition: no two tiles of the list share an identifier; PrefixIdentifiersDistinct establishes it for the spawn |
| Board.PrefixIdentifiersDistinct | Assets/_Assets/Scripts/Managers/HexagonManager.cs:77-91 | a list whose identifiers follow column-major order has no identifier twice |
| Board.LookupUnique | Assets/_Assets/Scripts/Managers/HexagonManager.cs:16-17 | on a list with distinct identifiers, the lookup in any prefix holding a tile finds exactly that tile at its identifier |
| Board.MatchFree | Assets/_Assets/Scripts/Controllers/HexagonController.cs:47-62 | the definition: every tile of the list has zero matching direction pairs, so the match scan around any tile finds only the tile itself; SpawnOutcomeNoMatch establishes it |
| Board.LastCornerDiffers | Assets/_Assets/Scripts/Managers/HexagonManager.cs:89-91 | the corner of a triangle spawned last was coloured while the other two were on the list in its clockwise pair, so it does not share their common colour |
| Board.FirstNeighborLast | Assets/_Assets/Scripts/Managers/HexagonManager.cs:77-91 | the case of NoMatchingPairAt where the neighbour in direction i was spawned last |
| Board.SecondNeighborLast | Assets/_Assets/Scripts/Managers/HexagonManager.cs:77-91 | the case of NoMatchingPairAt where the neighbour in direction i + 1 was spawned last |
| Board.NoMatchingPairAt | Assets/_Assets/Scripts/Managers/HexagonManager.cs:77-91 | no direction pair around a spawned tile matches its colour: a tile and its neighbours in directions i and i + 1 never all share a colour, whichever of the three was spawned last |
| Board.NoMatchAt | Assets/_Assets/Scripts/Controllers/HexagonController.cs:47-62 | a spawned tile has zero matching direction pairs |
| Board.SpawnOutcomeNoMatch | Assets/_Assets/Scripts/Managers/HexagonManager.cs:71-95 | the purpose the exclusion scan states, preventing points at start: the board any spawn leaves, complete or cut short, holds no same-coloured triangle, although each tile was coloured only against the tiles spawned before it |
| Board.HexagonManager.constructor | Assets/_Assets/Scripts/Managers/HexagonManager.cs:11-14 | an empty board with the given prefab colour |
| Board.HexagonManager.GetHexagonController | Assets/_Assets/Scripts/Managers/HexagonManager.cs:16-17 | the first board tile with the identifier, or null exactly when there is none |
| Board.HexagonManager.RotateHexagons | Assets/_Assets/Scripts/Managers/HexagonManager.cs:28-60 | with other than three tiles nothing moves; with three, the positions become the rotation of the original ones; identifiers, colours and kinds are kept |
| Board.HexagonManager.MoveToPrevious | Assets/_Assets/Scripts/Managers/HexagonManager.cs:36-46 | walking from the last tile down, tile i ends at the original position of tile (i − 1) mod 3 |
| Board.HexagonManager.MoveToNext | Assets/_Assets/Scripts/Managers/HexagonManager.cs:51-59 | walking from the first tile up, tile i ends at the original position of tile (i + 1) mod 3 |
| Board.HexagonManager.SpawnInitialHexagons | Assets/_Assets/Scripts/Managers/HexagonManager.cs:71-95 | the list ends in the state SpawnOutcome describes: the identifiers are a prefix of column-major order, the whole order exactly when no colour pick failed; on a failure the next cell in that order exists and its pick fails against the tiles placed; the spawn invariant holds; with more than six distinct palette colours the spawn always completes; and the board holds no same-coloured triangle (MatchFree) |
| Board.HexagonManager.SpawnColumns | Assets/_Assets/Scripts/Managers/HexagonManager.cs:77-94 | the outer loop, with the same guarantees as the spawn, each stated outright |
| Board.HexagonManager.SpawnColumn | Assets/_Assets/Scripts/Managers/HexagonManager.cs:78-94 | one column appended in row order, or a strict prefix of it when a pick failed, and then the pick of the next cell in column-major order fails against the list; the tiles already in the list are kept as its prefix; the spawn invariant is kept |
| Board.HexagonManager.SpawnCell | Assets/_Assets/Scripts/Managers/HexagonManager.cs:80-93 | a successful pick appends tile (x, y), keeping the earlier tiles as a prefix and adding exactly one; a failed one leaves the list as it was, and it fails only when no palette colour suits cell (x, y) on that list; the invariant is kept |
| Board.HexagonManager.NewHexagon | Assets/_Assets/Scripts/Managers/HexagonManager.cs:80-89 | a new tile (x, y) on its grid cell; the pick succeeds exactly when some palette colour suits cell (x, y) on the current list, and the tile is then coloured against that list |
| Board.HexagonManager.PlaceHexagon | Assets/_Assets/Scripts/Managers/HexagonManager.cs:80-88 | a new normal tile with identifier (x, y), resting on grid[x, y] |
| Bomb.SameColored | Assets/_Assets/Scripts/Controllers/BombController.cs:22-23 | the filter is never longer than the board |
| Bomb.SameColoredMembers | Assets/_Assets/Scripts/Controllers/BombController.cs:22-23 | a tile is kept exactly when it is on the board and has the bomb's colour |
| Bomb.SameColoredCount | Assets/_Assets/Scripts/Controllers/BombController.cs:22-23 | every copy of a matching tile is kept, and no copy of any other tile |
| Bomb.GetControllersToDestroy | Assets/_Assets/Scripts/Controllers/BombController.cs:20-27 | the bomb is the last entry, after at most the whole board |
| Bomb.ControllersToDestroyMembers | Assets/_Assets/Scripts/Controllers/BombController.cs:20-27 | the result holds the bomb and every board tile of its colour, and nothing of another colour |
| Bomb.BombListedTwice | Assets/_Assets/Scripts/Controllers/BombController.cs:22-26 | a bomb on the board is listed once more than it occurs there, so at least twice |
| Bomb.Remaining | Assets/_Assets/Scripts/Controllers/BombController.cs:20-27 | taking tiles off the board never lengthens it |
| Bomb.RemainingMembers | Assets/_Assets/Scripts/Controllers/BombController.cs:20-27 | a tile remains exactly when it is on the board and not destroyed |
| Bomb.DetonationClearsColor | Assets/_Assets/Scripts/Controllers/BombController.cs:22-26 | after taking the returned tiles off, no tile of the bomb's colour remains, and every tile of another colour does |
| Bomb.Start | Assets/_Assets/Scripts/Controllers/BombController.cs:36-42 | on a bomb tile, the counter is set to 7 and nothing else changes |
| Bomb.Countdown | Assets/_Assets/Scripts/Controllers/BombController.cs:44-52 | n calls give n booleans, one per call, each true when that call signals game over |
| Bomb.CountdownAt | Assets/_Assets/Scripts/Controllers/BombController.cs:44-52 | call k signals exactly when k + 1 decrements bring the counter to zero or below |
| Bomb.SeventhMoveEndsGame | Assets/_Assets/Scripts/Controllers/BombController.cs:38-50 | from 7, the first six calls pass and the seventh and every later call signal game over |
| Bomb.ReduceCounter | Assets/_Assets/Scripts/Controllers/BombController.cs:44-52 | the counter drops by exactly one, and the game is over exactly when it is zero or below |
| Score.ScoreManager.constructor | Assets/_Assets/Scripts/Managers/ScoreManager.cs:25-33 | the score starts at 0 with the configured multiplier |
| Score.ScoreManager.AddScore | Assets/_Assets/Scripts/Managers/ScoreManager.cs:19-23 | the score grows by exactly amount·multiplier, its one-step fold |
| Score.ScoreAfter | Assets/_Assets/Scripts/Managers/ScoreManager.cs:21 | the definition: the score after AddScore is applied with each amount in turn; ScoreAfterIsScaledSum and ScoreNeverDecreases state its properties, and AddScore is proved to compute one step of it |
| Score.ScoreAfterIsScaledSum | Assets/_Assets/Scripts/Managers/ScoreManager.cs:21 | after a sequence of calls the score has grown by the multiplier times the sum of the amounts |
| Score.ScoreNeverDecreases | Assets/_Assets/Scripts/Managers/ScoreManager.cs:21 | with non-negative amounts and multiplier the score never goes down |
| Score.ThreeTilesExample | Assets/_Assets/Scripts/Managers/ScoreManager.cs:13-21 | a new manager with the default multiplier 5 scores 15 for three tiles |

## Left out

- The movement coroutine (`MoveHexagonToEnumerator`, its interpolation and frame timing) is left out. A position in the model is where the tile comes to rest.
- The spawn's `WaitForSeconds`, scale, rotation and parent object are left out. The spawn offset of 15 units is modelled, but the move that follows overwrites it.
- The spawn coroutine yields. Other code can then see the list grow one tile at a time. The model builds the list and assigns it once, at the end.
- The 0.01 colour tolerance is left out, because it is not transitive and is specific to floating point. Colours are exact channel values.
- Positions are exact reals, where the engine uses 32-bit floats (`0.75f`, `0.866f`, `0.433f`, the 15-unit offset). No part of the model depends on rounding.
- `Random.Range` is an arbitrary choice from the suitable list.
- The Unity singletons (`Awake` guards, `Instance`), `Instantiate`, `GetComponent` and the renderers are left out. The board list and the palette are parameters or fields.
- The bomb's own `Color` and `ApplyColor` overrides are not modelled separately. They read and write the sprite's colour, which is the tile's `color` here.
- The bomb's counter text (`counterText.text`, BombController.cs lines 39 and 47) is a display of `movesLeft` and is left out with the rest of the UI.
- Physics, the cursor, input, the UI score text and startup (`GameManager.DisplayGameOver`) are left out. Game over is the result of `ReduceCounter`.
- `GridManager.GetPositionToMove` is not part of this model. `MoveHexagonDown` receives it as the function parameter `positionToMove`.
- `GridManager.FindNearestCursorSnapPoint` and `HexagonManager.OnMoveMade` are not part of this model. `ReduceCounter` is treated as called once per move.
- The falling cascade, the refill and bomb spawning are not part of this model. Only the single-step `DoesHaveHexagonBelow` and `MoveHexagonDown` are.
- The grid size is a pair of floats in the engine. It is modelled as whole numbers, assuming the configured values are integral.
- The manager calls `MoveHexagonTo` with two arguments, but the shown declaration takes three. The two-argument call is modelled as a move that keeps the identifier.
- `CompareColors` is declared as a two-argument instance method, but it is called statically and with three arguments. The three-argument form is modelled as "all three equal".
- The `(0, 0)` fall-through of `ConvertDirectionToIdentifier` cannot be reached: the match over the six directions is total.
- Score.ScoreManager.AddScore: does not model 32-bit wrap-around of the score or of `amount · multiplier`, because integers are unbounded here. Tile identifiers are unbounded too.
- Board.HexagonManager.RotateHexagons: requires the three tiles to be distinct objects. If one object were listed twice, the engine would move it twice, and the later move would win.
- Board.HexagonManager.SpawnInitialHexagons: states that the spawned tiles are pairwise distinct, not that they are freshly allocated. The nested loops are split into `SpawnColumns`, `SpawnColumn` and `SpawnCell`.
- Bomb.Remaining: the removal of the destroyed tiles happens in code that is not part of this model. `Remaining` is the board without them, so that `DetonationClearsColor` can state what that removal leaves.
