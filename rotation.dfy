/**
 * The cyclic movement of RotateHexagons, on the list of positions the
 * selected tiles occupy.
 */
module Rotation {

  /**
   * The rotation runs "inverted" when the second tile lies left of the
   * first for a clockwise turn, or right of it for a counterclockwise one.
   */
  predicate InvertRotation(clockwise: bool, x0: real, x1: real)
  {
    if clockwise then x1 < x0 else x1 > x0
  }

  /**
   * Whose original position tile i moves to: the next tile's (the last
   * takes the first's), or when inverted the previous tile's (the first
   * takes the last's).
   */
  function Target(i: nat, n: nat, inverted: bool): (t: nat)
    requires i < n
    ensures t < n
  {
    if inverted then (if i == 0 then n - 1 else i - 1)
    else (if i == n - 1 then 0 else i + 1)
  }

  /** The positions after every tile has moved to its target. */
  function Rotate<T>(ps: seq<T>, inverted: bool): (r: seq<T>)
    ensures |r| == |ps|
    ensures forall i :: 0 <= i < |ps| ==> r[i] == ps[Target(i, |ps|, inverted)]
  {
    seq(|ps|, i requires 0 <= i < |ps| => ps[Target(i, |ps|, inverted)])
  }

  lemma InvertRotationCases(clockwise: bool, x0: real, x1: real)
    ensures InvertRotation(clockwise, x0, x1) <==> (clockwise && x1 < x0) || (!clockwise && x1 > x0)
  {
  }

  /** Distinct tiles get distinct targets. */
  lemma TargetInjective(i: nat, j: nat, n: nat, inverted: bool)
    requires i < n && j < n && i != j
    ensures Target(i, n, inverted) != Target(j, n, inverted)
  {
  }

  /** Either direction only permutes the positions. */
  lemma RotateIsPermutation<T>(ps: seq<T>, inverted: bool)
    ensures multiset(Rotate(ps, inverted)) == multiset(ps)
  {
    if ps != [] {
      var n := |ps|;
      if inverted {
        assert Rotate(ps, inverted) == ps[n - 1..] + ps[..n - 1];
        assert ps == ps[..n - 1] + ps[n - 1..];
      } else {
        assert Rotate(ps, inverted) == ps[1..] + ps[..1];
        assert ps == ps[..1] + ps[1..];
      }
    }
  }

  /** The inverted rotation undoes the plain one, and the other way round. */
  lemma RotateInverse<T>(ps: seq<T>)
    ensures Rotate(Rotate(ps, false), true) == ps
    ensures Rotate(Rotate(ps, true), false) == ps
  {
    var n := |ps|;
    forall i | 0 <= i < n
      ensures Rotate(Rotate(ps, false), true)[i] == ps[i]
      ensures Rotate(Rotate(ps, true), false)[i] == ps[i]
    {
      assert Target(Target(i, n, true), n, false) == i;
      assert Target(Target(i, n, false), n, true) == i;
    }
  }

  /**
   * Three applications of the same cycle return a cluster of three to its
   * arrangement. RotateHexagons chooses the cycle afresh on each call from
   * the tiles' current positions, so three turns in one direction need not
   * apply the same cycle three times.
   */
  lemma RotateThrice<T>(ps: seq<T>, inverted: bool)
    requires |ps| == 3
    ensures Rotate(Rotate(Rotate(ps, inverted), inverted), inverted) == ps
  {
  }
}
