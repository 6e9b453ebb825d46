/** One round of Thirty (models/Round.kt): six dice, up to three rolls, and the scoring
    state of the round. */
module RoundModel {
  import opened Wrappers
  import opened ScoreOptions
  import opened DieModel

  /** `Round.MAX_ROLLS`. */
  const MaxRolls: int := 3

  class Round {
    const dice: seq<Die>
    var rollCount: int
    var selectedCategory: Option<ScoreOption>
    var isScored: bool

    /** Six distinct dice with identifiers 1 to 6 in order, and a roll count in bounds. */
    ghost predicate Valid()
      reads this
    {
      && |dice| == 6
      && Distinct(dice)
      && (forall i :: 0 <= i < |dice| ==> dice[i].id == i + 1)
      && 0 <= rollCount <= MaxRolls
    }

    /** Every die is as `reset` leaves it. */
    ghost predicate DiceInitial()
      reads this, dice
    {
      forall i :: 0 <= i < |dice| ==> dice[i].Initial()
    }

    /** A new round: `List(6) { Die(it + 1) }`, no rolls yet, no category, not scored. */
    constructor ()
      ensures Valid() && DiceInitial()
      ensures forall i :: 0 <= i < |dice| ==> fresh(dice[i])
      ensures rollCount == 0 && selectedCategory == None && !isScored
    {
      var ds: seq<Die> := [];
      for k := 0 to 6
        invariant |ds| == k && Distinct(ds)
        invariant forall i :: 0 <= i < k ==> fresh(ds[i]) && ds[i].id == i + 1 && ds[i].Initial()
      {
        var d := new Die(k + 1);
        ds := ds + [d];
      }
      dice := ds;
      rollCount := 0;
      selectedCategory := None;
      isScored := false;
    }

    /** `canRoll`. */
    predicate CanRoll()
      reads this
    {
      rollCount < MaxRolls
    }

    /** `maxRolls`, which Round.kt does not define: the limit `MAX_ROLLS`. */
    function MaxRollsOfRound(): int
    {
      MaxRolls
    }

    /** `incrementRollCount`: one more roll while rolling is allowed; at the limit, nothing. */
    method IncrementRollCount()
      requires Valid()
      modifies this
      ensures Valid()
      ensures rollCount == if old(rollCount) < MaxRolls then old(rollCount) + 1 else old(rollCount)
      ensures selectedCategory == old(selectedCategory) && isScored == old(isScored)
    {
      if CanRoll() {
        rollCount := rollCount + 1;
      }
    }

    /** `reset`: no rolls, no category, not scored, and every die reset. */
    method Reset()
      requires Valid()
      modifies this, dice
      ensures Valid() && DiceInitial()
      ensures rollCount == 0 && selectedCategory == None && !isScored
    {
      rollCount := 0;
      selectedCategory := None;
      isScored := false;
      ResetEach(dice);
    }

    /** `restoreRollCount`, which Round.kt does not define: sets the roll count, kept within
        0 to `MAX_ROLLS`. */
    method RestoreRollCount(count: int)
      requires Valid()
      modifies this
      ensures Valid()
      ensures rollCount == if count < 0 then 0 else if count > MaxRolls then MaxRolls else count
      ensures selectedCategory == old(selectedCategory) && isScored == old(isScored)
    {
      rollCount := if count < 0 then 0 else if count > MaxRolls then MaxRolls else count;
    }
  }
}
