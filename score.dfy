/** ScoreManager: the score, raised by a fixed amount per destroyed tile. */
module Score {

  /** The multiplier the manager is configured with unless overridden. */
  const DefaultScoreMultiplier: int := 5

  class ScoreManager {
    var score: int
    var scoreMultiplier: int

    /** Awake: the score starts at zero. */
    constructor (scoreMultiplier: int)
      ensures score == 0 && this.scoreMultiplier == scoreMultiplier
    {
      score := 0;
      this.scoreMultiplier := scoreMultiplier;
    }

    /** Every destroyed tile is worth `scoreMultiplier` points. */
    method AddScore(destroyedTileAmount: int)
      modifies this
      ensures score == old(score) + destroyedTileAmount * scoreMultiplier
      ensures score == ScoreAfter(old(score), scoreMultiplier, [destroyedTileAmount])
      ensures scoreMultiplier == old(scoreMultiplier)
    {
      score := score + destroyedTileAmount * scoreMultiplier;
    }
  }

  function Sum(amounts: seq<int>): int
  {
    if amounts == [] then 0 else amounts[0] + Sum(amounts[1..])
  }

  /** The score after AddScore is called with each amount in turn. */
  function ScoreAfter(score: int, multiplier: int, amounts: seq<int>): int
    decreases |amounts|
  {
    if amounts == [] then score
    else ScoreAfter(score + amounts[0] * multiplier, multiplier, amounts[1..])
  }

  /** The score grows by the multiplier times the total of the amounts. */
  lemma {:induction false} ScoreAfterIsScaledSum(score: int, multiplier: int, amounts: seq<int>)
    ensures ScoreAfter(score, multiplier, amounts) == score + multiplier * Sum(amounts)
    decreases |amounts|
  {
    if amounts != [] {
      var rest := amounts[1..];
      ScoreAfterIsScaledSum(score + amounts[0] * multiplier, multiplier, rest);
      assert multiplier * Sum(amounts) == amounts[0] * multiplier + multiplier * Sum(rest);
    }
  }

  /** With non-negative amounts and multiplier no call lowers the score. */
  lemma {:induction false} ScoreNeverDecreases(score: int, multiplier: int, amounts: seq<int>)
    requires multiplier >= 0
    requires forall i :: 0 <= i < |amounts| ==> amounts[i] >= 0
    ensures ScoreAfter(score, multiplier, amounts) >= score
    decreases |amounts|
  {
    if amounts != [] {
      var rest := amounts[1..];
      assert forall i :: 0 <= i < |rest| ==> rest[i] == amounts[i + 1];
      ScoreNeverDecreases(score + amounts[0] * multiplier, multiplier, rest);
    }
  }

  /** A fresh manager with the default multiplier: destroying three tiles is worth fifteen points. */
  method ThreeTilesExample() returns (score: int)
    ensures score == 15
  {
    var manager := new ScoreManager(DefaultScoreMultiplier);
    manager.AddScore(3);
    score := manager.score;
  }
}
