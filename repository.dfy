/** The dice of the current round, behind the `DiceRepository` interface
    (repository/DiceRepository.kt, repository/DefaultDiceRepository.kt). The interface
    has one implementation, so its contract is stated on that implementation. */
module Repository {
  import opened Wrappers
  import opened DieModel
  import opened RoundModel
  import opened GameModel

  class DefaultDiceRepository {
    const game: Game

    constructor (game: Game)
      ensures this.game == game
    {
      this.game := game;
    }

    /** `getAllDice`: the dice of the round being played. */
    function GetAllDice(): seq<Die>
      reads game
    {
      game.currentRound.dice
    }

    /** `getSelectedDice`: exactly the dice of the current round that are selected, in order. */
    function GetSelectedDice(): (r: seq<Die>)
      reads game, game.currentRound.dice
      ensures forall d :: d in r ==> d in GetAllDice() && d.isSelected
      ensures forall d :: d in GetAllDice() && d.isSelected ==> d in r
      ensures r == SelectedDice(GetAllDice())
    {
      SelectedDice(game.currentRound.dice)
    }

    /** `getDieById`: the first die of the current round whose initial value is `id`, or
        none when no die has it. */
    function GetDieById(id: int): (r: Option<Die>)
      reads game
      ensures r.Some? ==> r.value in GetAllDice() && r.value.InitialValue() == id
      ensures r.None? <==> forall d :: d in GetAllDice() ==> d.InitialValue() != id
    {
      FindById(game.currentRound.dice, id)
    }

    /** `deselectAllDice`: no die of the current round stays selected; faces and rolled
        flags are kept. */
    method DeselectAllDice()
      requires game.Valid()
      modifies game.currentRound.dice
      ensures forall d :: d in GetAllDice() ==> !d.isSelected && d.Valid()
      ensures forall d :: d in GetAllDice() ==> d.value == old(d.value) && d.hasBeenRolled == old(d.hasBeenRolled)
    {
      DeselectEach(game.currentRound.dice);
    }

    /** `resetDice`: every die of the current round is back in its initial state. */
    method ResetDice()
      requires game.Valid()
      modifies game.currentRound.dice
      ensures forall d :: d in GetAllDice() ==> d.Initial() && d.Valid()
    {
      ResetEach(game.currentRound.dice);
    }
  }
}
