/** ColorManager.ApplySuitableColor: the colour a newly generated tile receives. */
module ColorManager {
  import opened Palette
  import opened Hexagon

  /**
   * Draws the tile's colour from the palette entries that its exclusion
   * list does not hold; which one is drawn is left open. When every entry
   * is excluded, the engine indexes an empty list and throws; here that
   * outcome is `ok == false` and the tile keeps its colour.
   */
  method ApplySuitableColor(hexagonColors: seq<Color>, controller: HexagonController, board: seq<HexagonController>)
    returns (ok: bool)
    modifies controller
    ensures ok <==> SuitableColors(hexagonColors, old(ExcludedColorsAt(board, controller.identifier))) != []
    ensures ok ==> controller.color in SuitableColors(hexagonColors, old(ExcludedColorsAt(board, controller.identifier)))
    ensures ok ==> controller.color in hexagonColors && controller.color !in old(ExcludedColorsAt(board, controller.identifier))
    ensures !ok ==> controller.color == old(controller.color)
    ensures controller.identifier == old(controller.identifier)
    ensures controller.position == old(controller.position) && controller.kind == old(controller.kind)
  {
    var colorsToExclude := controller.GetColorsToExclude(board);
    var suitableColors := CollectSuitableColors(hexagonColors, colorsToExclude);
    if |suitableColors| == 0 {
      return false;
    }
    // Random.Range(0, suitableColors.Count)
    var k :| 0 <= k < |suitableColors|;
    SuitableColorsMembers(hexagonColors, colorsToExclude);
    controller.ApplyColor(suitableColors[k]);
    return true;
  }

  /** The colour pick for `cell` fails on `board`: every palette entry is on its exclusion list. */
  predicate NoSuitableColor(hexagonColors: seq<Color>, board: seq<HexagonController>, cell: Cell)
    reads board
  {
    SuitableColors(hexagonColors, ExcludedColorsAt(board, cell)) == []
  }

  /**
   * A cell has at most six neighbours and each excludes at most its own
   * colour, so a palette of more than six distinct colours never runs out.
   */
  lemma RichPaletteAlwaysSuits(hexagonColors: seq<Color>, board: seq<HexagonController>, cell: Cell)
    ensures |set c | c in hexagonColors| > 6 ==> !NoSuitableColor(hexagonColors, board, cell)
  {
    ExclusionBound(board, cell);
    if |set c | c in hexagonColors| > 6 {
      PaletteNeverExhausted(hexagonColors, ExcludedColorsAt(board, cell));
    }
  }
}
