/**
 * Colours and the palette filter of ColorManager.
 *
 * A colour keeps the four channels of the engine's colour type, but as
 * discrete values compared exactly: the tolerance of 0.01 per channel is
 * replaced by equality.
 */
module Palette {

  datatype Color = Rgba(r: int, g: int, b: int, a: int)

  /** ColorManager.CompareColors: every channel agrees. */
  predicate CompareColors(first: Color, second: Color)
  {
    first.r == second.r && first.g == second.g && first.b == second.b && first.a == second.a
  }

  /** The three-argument form the controllers call: all three colours agree. */
  predicate CompareColors3(first: Color, second: Color, third: Color)
  {
    CompareColors(first, second) && CompareColors(second, third)
  }

  lemma CompareColorsIsEquality(first: Color, second: Color)
    ensures CompareColors(first, second) <==> first == second
  {
  }

  lemma CompareColorsReflexiveSymmetric(first: Color, second: Color)
    ensures CompareColors(first, first)
    ensures CompareColors(first, second) <==> CompareColors(second, first)
  {
  }

  lemma CompareColors3IsAllEqual(first: Color, second: Color, third: Color)
    ensures CompareColors3(first, second, third) <==> first == second == third
  {
  }

  /** The inner loop of ApplySuitableColor: some excluded colour compares equal to `c`. */
  predicate IsExcluded(c: Color, exclude: seq<Color>)
  {
    exists e :: e in exclude && CompareColors(e, c)
  }

  /**
   * The palette entries, in palette order, that compare equal to no
   * excluded colour (the list `suitableColors` of ApplySuitableColor).
   */
  function SuitableColors(palette: seq<Color>, exclude: seq<Color>): (r: seq<Color>)
    ensures |r| <= |palette|
  {
    if palette == [] then []
    else
      var last := palette[|palette| - 1];
      SuitableColors(palette[..|palette| - 1], exclude) + (if IsExcluded(last, exclude) then [] else [last])
  }

  /** A colour is suitable exactly when it is in the palette and not excluded. */
  lemma {:induction false} SuitableColorsMembers(palette: seq<Color>, exclude: seq<Color>)
    ensures forall c :: c in SuitableColors(palette, exclude) <==> c in palette && c !in exclude
  {
    if palette != [] {
      var init := palette[..|palette| - 1];
      SuitableColorsMembers(init, exclude);
      assert palette == init + [palette[|palette| - 1]];
    }
  }

  /** The filter keeps palette order: it distributes over concatenation. */
  lemma {:induction false} SuitableColorsConcat(p: seq<Color>, q: seq<Color>, exclude: seq<Color>)
    ensures SuitableColors(p + q, exclude) == SuitableColors(p, exclude) + SuitableColors(q, exclude)
    decreases |q|
  {
    if q == [] {
      assert p + q == p;
    } else {
      var q' := q[..|q| - 1];
      assert (p + q)[..|p + q| - 1] == p + q';
      SuitableColorsConcat(p, q', exclude);
    }
  }

  /** An empty exclusion list leaves the whole palette. */
  lemma {:induction false} SuitableColorsNoExclusion(palette: seq<Color>)
    ensures SuitableColors(palette, []) == palette
  {
    if palette != [] {
      var init, last := palette[..|palette| - 1], palette[|palette| - 1];
      SuitableColorsNoExclusion(init);
      assert !IsExcluded(last, []);
      assert palette == init + [last];
    }
  }

  /** The suitable list is empty exactly when every palette colour is excluded. */
  lemma SuitableColorsEmpty(palette: seq<Color>, exclude: seq<Color>)
    ensures SuitableColors(palette, exclude) == [] <==> forall c :: c in palette ==> c in exclude
  {
    var r := SuitableColors(palette, exclude);
    SuitableColorsMembers(palette, exclude);
    if r != [] {
      assert r[0] in r;
    }
  }

  lemma {:induction false} DistinctElementsBound(s: seq<Color>)
    ensures |set c | c in s| <= |s|
  {
    if s != [] {
      var s' := s[..|s| - 1];
      DistinctElementsBound(s');
      assert (set c | c in s) == (set c | c in s') + {s[|s| - 1]};
    }
  }

  lemma SubsetCardinality(small: set<Color>, large: set<Color>)
    requires small <= large
    ensures |small| <= |large|
  {
    assert large == small + (large - small);
  }

  /**
   * A palette with more distinct colours than there are exclusions can
   * never be exhausted, so the random pick always has a colour to draw.
   */
  lemma PaletteNeverExhausted(palette: seq<Color>, exclude: seq<Color>)
    requires |set c | c in palette| > |exclude|
    ensures SuitableColors(palette, exclude) != []
  {
    var colors := set c | c in palette;
    var excluded := set c | c in exclude;
    DistinctElementsBound(exclude);
    if colors <= excluded {
      SubsetCardinality(colors, excluded);
      assert false;
    }
    var w :| w in colors && w !in excluded;
    SuitableColorsMembers(palette, exclude);
    assert w in SuitableColors(palette, exclude);
  }

  /** The nested loop of ApplySuitableColor that builds the suitable list. */
  method CollectSuitableColors(palette: seq<Color>, exclude: seq<Color>) returns (suitable: seq<Color>)
    ensures suitable == SuitableColors(palette, exclude)
  {
    suitable := [];
    for i := 0 to |palette|
      invariant suitable == SuitableColors(palette[..i], exclude)
    {
      var areEqual := false;
      for j := 0 to |exclude|
        invariant areEqual <==> exists e :: e in exclude[..j] && CompareColors(e, palette[i])
      {
        assert exclude[..j + 1] == exclude[..j] + [exclude[j]];
        if CompareColors(exclude[j], palette[i]) {
          areEqual := true;
        }
      }
      assert exclude[..|exclude|] == exclude;
      assert palette[..i + 1][..i] == palette[..i];
      if !areEqual {
        suitable := suitable + [palette[i]];
      }
    }
    assert palette[..|palette|] == palette;
  }
}
