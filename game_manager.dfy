/** The game driver (managers/GameManager.kt): rolling, selecting, scoring a round, and
    putting saved state back. */
module Managers {
  import opened Wrappers
  import opened ScoreOptions
  import opened ScoreCalculator
  import opened DieModel
  import opened RoundModel
  import opened GameModel
  import opened Repository

  /** A value read back from saved state, where the program stores `Any`: an `Int`, a
      `Boolean`, or something else. */
  datatype SavedValue = IntValue(i: int) | BoolValue(b: bool) | OtherValue

  /** One saved die: the map the program saves, keyed "value", "isSelected" and
      "hasBeenRolled". */
  type SavedDie = map<string, SavedValue>

  /** A saved die whose three entries are present and of the right type. */
  predicate WellTyped(saved: SavedDie)
  {
    && "value" in saved && saved["value"].IntValue?
    && "isSelected" in saved && saved["isSelected"].BoolValue?
    && "hasBeenRolled" in saved && saved["hasBeenRolled"].BoolValue?
  }

  class GameManager {
    const game: Game
    const diceRepository: DefaultDiceRepository

    constructor (game: Game, diceRepository: DefaultDiceRepository)
      ensures this.game == game && this.diceRepository == diceRepository
    {
      this.game := game;
      this.diceRepository := diceRepository;
    }

    /** `dice`: the dice of the current round. */
    function Dice(): seq<Die>
      reads game
    {
      game.currentRound.dice
    }

    /** `rollCount` of the current round. */
    function RollCount(): int
      reads game, game.currentRound
    {
      game.currentRound.rollCount
    }

    /** `roundNumber`. */
    function RoundNumber(): int
      reads game
    {
      game.GetCurrentRoundNumber()
    }

    /** `isGameOver`. */
    predicate IsGameOver()
      reads game
    {
      game.IsGameOver()
    }

    /** `canRollMore`: the roll limit `Game.ROLLS_PER_ROUND` is not reached yet. */
    predicate CanRollMore()
      reads game, game.currentRound
      ensures CanRollMore() <==> !IsRollLimitReached()
    {
      RollCount() < RollsPerRound
    }

    /** `isRollLimitReached`. */
    predicate IsRollLimitReached()
      reads game, game.currentRound
    {
      RollCount() >= RollsPerRound
    }

    /** `getSelectedDice`: the selected dice of the current round, in order. */
    function GetSelectedDice(): (r: seq<Die>)
      reads game, game.currentRound.dice
      ensures forall d :: d in r ==> d in Dice() && d.isSelected
      ensures forall d :: d in Dice() && d.isSelected ==> d in r
      ensures r == SelectedDice(Dice())
    {
      SelectedDice(game.currentRound.dice)
    }

    /** `rollDice`. At the limit nothing changes. Otherwise the first roll of a round rolls
        every die and a later roll rolls only the selected dice, keeping the faces of the
        others; selections are kept, and the roll count goes up by one. */
    method RollDice()
      requires game.Valid()
      modifies game.currentRound, set d | d in game.currentRound.dice
      ensures game.Valid()
      ensures old(RollCount()) >= RollsPerRound ==>
        RollCount() == old(RollCount()) && forall d :: d in Dice() ==> unchanged(d)
      ensures old(RollCount()) >= RollsPerRound ==> unchanged(game.currentRound)
      ensures old(RollCount()) < RollsPerRound ==> RollCount() == old(RollCount()) + 1
      ensures game.currentRound.selectedCategory == old(game.currentRound.selectedCategory)
      ensures game.currentRound.isScored == old(game.currentRound.isScored)
      ensures old(RollCount()) == 0 ==>
        forall d :: d in Dice() ==> 1 <= d.value <= 6 && d.hasBeenRolled && d.isSelected == old(d.isSelected)
      ensures 0 < old(RollCount()) < RollsPerRound ==>
        forall d :: d in Dice() ==>
          && d.isSelected == old(d.isSelected)
          && (if old(d.isSelected) then 1 <= d.value <= 6 && d.hasBeenRolled
              else d.value == old(d.value) && d.hasBeenRolled == old(d.hasBeenRolled))
    {
      if !CanRollMore() {
        return;
      }
      if RollCount() == 0 {
        RollEach(Dice());
      } else {
        var selected := GetSelectedDice();
        RollEach(selected);
      }
      game.currentRound.IncrementRollCount();
    }

    /** `toggleDieSelected`: toggles the die at `index`; an index outside the dice changes
        nothing, and no other die changes. */
    method ToggleDieSelected(index: int)
      requires game.Valid()
      modifies game.currentRound.dice
      ensures game.Valid()
      ensures forall i :: 0 <= i < |Dice()| && i != index ==> unchanged(Dice()[i])
      ensures 0 <= index < |Dice()| ==>
        && Dice()[index].isSelected == Toggled(old(Dice()[index].isSelected), old(Dice()[index].hasBeenRolled))
        && Dice()[index].value == old(Dice()[index].value)
        && Dice()[index].hasBeenRolled == old(Dice()[index].hasBeenRolled)
    {
      if 0 <= index < |Dice()| {
        Dice()[index].ToggleIsSelected();
      }
    }

    /** `completeRound`: scores the faces of the selected dice in `category`. A failure,
        including no selected die, leaves the game as it was; a success records the score
        and moves on to a fresh round, the finished one joining the history. */
    method CompleteRound(category: ScoreOption) returns (r: Result<int, ScoreError>)
      requires game.Valid()
      modifies game
      ensures game.Valid()
      ensures r == Score(category, old(Faces(GetSelectedDice())))
      ensures r.Failure? ==>
        && game.rounds == old(game.rounds) && game.currentRound == old(game.currentRound)
        && game.categoryScores == old(game.categoryScores)
      ensures r.Success? ==>
        && game.rounds == old(game.rounds) + [old(game.currentRound)]
        && game.categoryScores == old(game.categoryScores)[category := r.value]
        && fresh(game.currentRound) && game.currentRound.rollCount == 0 && game.currentRound.DiceInitial()
        && game.currentRound.selectedCategory == None && !game.currentRound.isScored
    {
      var selectedDice := Faces(GetSelectedDice());
      if selectedDice == [] {
        return Failure(NoDiceSelected);
      }
      r := CalculateScore(category, selectedDice);
      if r.Success? {
        game.ScoreCategory(category, r.value);
        game.ResetRound();
      }
    }

    /** `resetDice`: every die of the current round back in its initial state. */
    method ResetDice()
      requires game.Valid()
      modifies game.currentRound.dice
      ensures game.Valid()
      ensures forall d :: d in Dice() ==> d.Initial() && d.Valid()
    {
      ResetEach(Dice());
    }

    /** `prepareForNextRoll`: every die deselected, faces and rolled flags kept. */
    method PrepareForNextRoll()
      requires game.Valid()
      modifies game.currentRound.dice
      ensures game.Valid()
      ensures forall d :: d in Dice() ==> !d.isSelected && d.value == old(d.value) && d.hasBeenRolled == old(d.hasBeenRolled)
    {
      DeselectEach(Dice());
    }

    /** `restoreRoundNumber`. */
    method RestoreRoundNumber(number: int)
      ensures RoundNumber() == old(RoundNumber())
    {
      game.SetCurrentRoundNumber(number);
    }

    /** `restoreRollCount`. */
    method RestoreRollCount(count: int)
      requires game.Valid()
      modifies game.currentRound
      ensures game.Valid()
      ensures RollCount() == if count < 0 then 0 else if count > MaxRolls then MaxRolls else count
      ensures game.currentRound.selectedCategory == old(game.currentRound.selectedCategory)
      ensures game.currentRound.isScored == old(game.currentRound.isScored)
    {
      game.currentRound.RestoreRollCount(count);
    }

    /** `restoreDice`: the `index`-th saved die is written into the `index`-th die when its
        three entries are well typed and the index is in range; every other die keeps its
        state. */
    method RestoreDice(savedDice: seq<SavedDie>)
      requires game.Valid()
      modifies game.currentRound.dice
      ensures game.Valid()
      ensures forall i :: 0 <= i < |Dice()| ==>
        if i < |savedDice| && WellTyped(savedDice[i]) then
          && Dice()[i].value == savedDice[i]["value"].i
          && Dice()[i].isSelected == savedDice[i]["isSelected"].b
          && Dice()[i].hasBeenRolled == savedDice[i]["hasBeenRolled"].b
        else unchanged(Dice()[i])
    {
      var currentDice := Dice();
      for index := 0 to |savedDice|
        invariant forall i :: 0 <= i < |currentDice| ==>
          if i < index && WellTyped(savedDice[i]) then
            && currentDice[i].value == savedDice[i]["value"].i
            && currentDice[i].isSelected == savedDice[i]["isSelected"].b
            && currentDice[i].hasBeenRolled == savedDice[i]["hasBeenRolled"].b
          else unchanged(currentDice[i])
      {
        var savedDie := savedDice[index];
        if WellTyped(savedDie) && index < |currentDice| {
          currentDice[index].RestoreState(savedDie["value"].i, savedDie["isSelected"].b, savedDie["hasBeenRolled"].b);
        }
      }
    }
  }
}
