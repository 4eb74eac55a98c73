/**
 * The two clockwise pairwise scans of HexagonController, on the colours
 * they look at.
 *
 * GetColorsToExclude walks the list of EXISTING neighbours and pairs each
 * with the next one in that list, the last with the first.
 * GetAdjacentNeighborsWithSameColor walks the six DIRECTIONS and pairs
 * direction i with direction i + 1, the last with the first. Here a
 * direction is an `Option<Color>`: `None` where no tile is found.
 */
module PairScan {
  import opened Wrappers
  import opened Palette

  /** The next index of a cyclic scan over `n` entries, as both loops compute it. */
  function Next(i: nat, n: nat): nat
    requires i < n
  {
    if i == n - 1 then 0 else i + 1
  }

  /** The values that are present, in order. */
  function Somes<T>(s: seq<Option<T>>): (r: seq<T>)
    ensures |r| <= |s|
  {
    if s == [] then []
    else Somes(s[..|s| - 1]) + (if s[|s| - 1].Some? then [s[|s| - 1].value] else [])
  }

  lemma {:induction false} SomesConcat<T>(a: seq<Option<T>>, b: seq<Option<T>>)
    ensures Somes(a + b) == Somes(a) + Somes(b)
    decreases |b|
  {
    if b == [] {
      assert a + b == a;
    } else {
      assert (a + b)[..|a + b| - 1] == a + b[..|b| - 1];
      SomesConcat(a, b[..|b| - 1]);
    }
  }

  /** A present entry at index i sits in `Somes(s)` after the values present before it. */
  lemma SomesAt<T>(s: seq<Option<T>>, i: nat)
    requires i < |s| && s[i].Some?
    ensures |Somes(s[..i])| < |Somes(s)|
    ensures Somes(s)[|Somes(s[..i])|] == s[i].value
  {
    assert s == s[..i] + s[i..];
    SomesConcat(s[..i], s[i..]);
    assert s[i..] == [s[i]] + s[i + 1..];
    SomesConcat([s[i]], s[i + 1..]);
    assert Somes([s[i]]) == [s[i].value] by {
      assert [s[i]][..0] == [];
    }
  }

  lemma SomesStep<T>(s: seq<Option<T>>, i: nat)
    requires i < |s|
    ensures |Somes(s[..i + 1])| == |Somes(s[..i])| + (if s[i].Some? then 1 else 0)
  {
    assert s[..i + 1][..i] == s[..i];
  }

  // ---------------------------------------------------------------------
  // GetColorsToExclude

  /** The colours the exclusion loop has added after its first `k` iterations. */
  function ExcludedUpTo(cs: seq<Color>, k: nat): (r: seq<Color>)
    requires k <= |cs|
    ensures |r| <= k
  {
    if k == 0 then []
    else
      ExcludedUpTo(cs, k - 1) + (if CompareColors(cs[k - 1], cs[Next(k - 1, |cs|)]) then [cs[k - 1]] else [])
  }

  /** The first k iterations exclude exactly the colours of the pairs among them that compare equal. */
  lemma {:induction false} ExcludedUpToMembers(cs: seq<Color>, k: nat)
    requires k <= |cs|
    ensures forall c :: c in ExcludedUpTo(cs, k) <==>
              exists i :: 0 <= i < k && CompareColors(cs[i], cs[Next(i, |cs|)]) && c == cs[i]
  {
    if k > 0 {
      ExcludedUpToMembers(cs, k - 1);
    }
  }

  /** The list GetColorsToExclude returns for the neighbour colours `cs`. */
  function ColorsToExclude(cs: seq<Color>): seq<Color>
  {
    ExcludedUpTo(cs, |cs|)
  }

  /**
   * Every excluded colour is the colour of some neighbour, there are at
   * most as many entries as neighbours, and a single neighbour is paired
   * with itself, so its colour is excluded.
   */
  lemma ColorsToExcludeFacts(cs: seq<Color>)
    ensures |ColorsToExclude(cs)| <= |cs|
    ensures forall c :: c in ColorsToExclude(cs) ==> c in cs
    ensures |cs| == 1 ==> ColorsToExclude(cs) == cs
  {
    ExcludedUpToMembers(cs, |cs|);
    if |cs| == 1 {
      assert cs[0] in ColorsToExclude(cs);
    }
  }

  /** Two existing neighbours in consecutive directions are consecutive in the neighbour list. */
  lemma ConsecutivePresentArePaired(dc: seq<Option<Color>>, i: nat)
    requires i < |dc| && dc[i].Some? && dc[Next(i, |dc|)].Some?
    ensures exists k :: 0 <= k < |Somes(dc)|
              && Somes(dc)[k] == dc[i].value && Somes(dc)[Next(k, |Somes(dc)|)] == dc[Next(i, |dc|)].value
  {
    var s := Somes(dc);
    SomesAt(dc, i);
    var k := |Somes(dc[..i])|;
    if i < |dc| - 1 {
      SomesAt(dc, i + 1);
      SomesStep(dc, i);
      assert Next(k, |s|) == k + 1;
    } else if |dc| == 1 {
      assert dc[..0] == [];
    } else {
      SomesAt(dc, 0);
      assert dc[..0] == [];
      assert dc == dc[..i] + [dc[i]];
      SomesConcat(dc[..i], [dc[i]]);
      assert Somes([dc[i]]) == [dc[i].value] by {
        assert [dc[i]][..0] == [];
      }
      assert Next(k, |s|) == 0;
    }
  }

  // ---------------------------------------------------------------------
  // GetAdjacentNeighborsWithSameColor

  /** Directions i and i + 1 both hold a tile, and both share colour `c`. */
  predicate MatchingPair(dc: seq<Option<Color>>, c: Color, i: nat)
    requires i < |dc|
  {
    dc[i].Some? && dc[Next(i, |dc|)].Some? && CompareColors3(dc[i].value, dc[Next(i, |dc|)].value, c)
  }

  /** How many of the first `k` direction pairs match colour `c`. */
  function SameColorPairs(dc: seq<Option<Color>>, c: Color, k: nat): nat
    requires k <= |dc|
  {
    if k == 0 then 0
    else SameColorPairs(dc, c, k - 1) + (if MatchingPair(dc, c, k - 1) then 1 else 0)
  }

  lemma {:induction false} SameColorPairsZero(dc: seq<Option<Color>>, c: Color, k: nat)
    requires k <= |dc|
    ensures SameColorPairs(dc, c, k) == 0 <==> forall i :: 0 <= i < k ==> !MatchingPair(dc, c, i)
  {
    if k > 0 {
      SameColorPairsZero(dc, c, k - 1);
    }
  }

  /**
   * A colour that the exclusion scan does not exclude forms no matching
   * pair: whatever neighbour pairs the direction scan finds, the neighbour
   * list paired them too.
   */
  lemma NoPreMatch(dc: seq<Option<Color>>, c: Color)
    requires c !in ColorsToExclude(Somes(dc))
    ensures SameColorPairs(dc, c, |dc|) == 0
  {
    forall i | 0 <= i < |dc|
      ensures !MatchingPair(dc, c, i)
    {
      if MatchingPair(dc, c, i) {
        ExcludedUpToMembers(Somes(dc), |Somes(dc)|);
        ConsecutivePresentArePaired(dc, i);
      }
    }
    SameColorPairsZero(dc, c, |dc|);
  }
}
