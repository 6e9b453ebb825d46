/** The whole game (models/Game.kt): the completed rounds, in the order they were played,
    and the round being played. */
module GameModel {
  import opened Wrappers
  import opened ScoreOptions
  import opened DieModel
  import opened RoundModel

  /** `Game.MAX_ROUNDS`. */
  const MaxRounds: int := 10
  /** `Game.ROLLS_PER_ROUND`. */
  const RollsPerRound: int := 3

  class Game {
    var rounds: seq<Round>
    var currentRound: Round
    /** The scores `scoreCategory` records; Game.kt does not define that method. */
    var categoryScores: map<ScoreOption, int>

    ghost predicate Valid()
      reads this, currentRound
    {
      currentRound.Valid()
    }

    /** A game with no completed round and a fresh first round. */
    constructor ()
      ensures Valid() && rounds == [] && categoryScores == map[]
      ensures fresh(currentRound) && currentRound.rollCount == 0 && currentRound.DiceInitial()
      ensures currentRound.selectedCategory == None && !currentRound.isScored
      ensures forall i :: 0 <= i < |currentRound.dice| ==> fresh(currentRound.dice[i])
    {
      rounds := [];
      currentRound := new Round();
      categoryScores := map[];
    }

    /** `isGameOver`: ten rounds have been completed. */
    predicate IsGameOver()
      reads this
    {
      |rounds| >= MaxRounds
    }

    /** `getCurrentRoundNumber`: one more than the rounds completed. */
    function GetCurrentRoundNumber(): int
      reads this
    {
      |rounds| + 1
    }

    /** `canRoll`. */
    predicate CanRoll()
      reads this, currentRound
    {
      currentRound.CanRoll()
    }

    /** `isFirstRoll`, which Game.kt does not define: no roll yet in the current round. */
    predicate IsFirstRoll()
      reads this, currentRound
    {
      currentRound.rollCount == 0
    }

    /** `incrementRollCount`: the current round counts one more roll while it may; the
        history and the round itself stay. */
    method IncrementRollCount()
      requires Valid()
      modifies currentRound
      ensures Valid()
      ensures currentRound.rollCount
           == if old(currentRound.rollCount) < MaxRolls then old(currentRound.rollCount) + 1 else old(currentRound.rollCount)
      ensures currentRound.selectedCategory == old(currentRound.selectedCategory) && currentRound.isScored == old(currentRound.isScored)
    {
      currentRound.IncrementRollCount();
    }

    /** `resetRound`: the current round joins the end of the history and a fresh round
        with no rolls starts, so the round number goes up by one. */
    method ResetRound()
      requires Valid()
      modifies this
      ensures Valid()
      ensures rounds == old(rounds) + [old(currentRound)]
      ensures fresh(currentRound) && currentRound.rollCount == 0 && currentRound.DiceInitial()
      ensures currentRound.selectedCategory == None && !currentRound.isScored
      ensures forall i :: 0 <= i < |currentRound.dice| ==> fresh(currentRound.dice[i])
      ensures GetCurrentRoundNumber() == old(GetCurrentRoundNumber()) + 1
      ensures IsGameOver() <==> |old(rounds)| + 1 >= MaxRounds
      ensures categoryScores == old(categoryScores)
    {
      rounds := rounds + [currentRound];
      currentRound := new Round();
    }

    /** `scoreCategory`, which Game.kt does not define: records the score of a category. */
    method ScoreCategory(category: ScoreOption, score: int)
      modifies this
      ensures categoryScores == old(categoryScores)[category := score]
      ensures rounds == old(rounds) && currentRound == old(currentRound)
    {
      categoryScores := categoryScores[category := score];
    }

    /** `setCurrentRoundNumber`, which Game.kt does not define. The round number is derived
        from the history here, so restoring it changes nothing. */
    method SetCurrentRoundNumber(number: int)
      ensures GetCurrentRoundNumber() == old(GetCurrentRoundNumber())
    {
    }
  }
}
