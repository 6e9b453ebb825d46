/** The older view model at the package root (GameViewModel.kt): it drives the game
    directly through `Game` and the dice repository, without the manager, and keeps its
    own score sheet. */
module AppViewModel {
  import opened Wrappers
  import opened ScoreOptions
  import opened ScoreCalculator
  import opened DieModel
  import opened RoundModel
  import opened GameModel
  import opened Repository
  import opened Ledger
  import opened Lists

  /** In a round whose dice carry the identifiers 1 to 6 in order, the die with identifier
      `index + 1` is the one at `index`, and no other identifier is found. */
  lemma {:induction false} FindByPosition(ds: seq<Die>, index: int)
    requires |ds| == 6 && forall i :: 0 <= i < |ds| ==> ds[i].id == i + 1
    ensures 0 <= index < |ds| ==> FindById(ds, index + 1) == Some(ds[index])
    ensures !(0 <= index < |ds|) ==> FindById(ds, index + 1) == None
  {
    var r := FindById(ds, index + 1);
    if r.Some? {
      var k :| 0 <= k < |ds| && ds[k] == r.value && forall j :: 0 <= j < k ==> ds[j].id != index + 1;
      assert k == index;
    }
  }

  class GameViewModel {
    const game: Game
    const diceRepository: DefaultDiceRepository
    var selectedCategory: Option<ScoreOption>
    var isDiceSelected: bool
    var scoreMap: map<ScoreOption, int>
    var remainingCategories: seq<ScoreOption>
    var areScoreButtonsEnabled: bool

    /** The repository works on this view model's game. */
    ghost predicate Valid()
      reads game, game.currentRound
    {
      game.Valid() && diceRepository.game == game
    }

    /** A new game on its first round, nothing selected, every category open. */
    constructor ()
      ensures Valid() && fresh(game) && game.rounds == [] && RollCount() == 0
      ensures selectedCategory == None && !isDiceSelected && !areScoreButtonsEnabled
      ensures scoreMap == map[] && remainingCategories == Entries
    {
      var g := new Game();
      game := g;
      diceRepository := new DefaultDiceRepository(g);
      selectedCategory := None;
      isDiceSelected := false;
      scoreMap := map[];
      remainingCategories := Entries;
      areScoreButtonsEnabled := false;
    }

    /** `isScoreCategoryChosen`. */
    predicate IsScoreCategoryChosen()
      reads this
    {
      selectedCategory.Some?
    }

    /** `dice`. */
    function Dice(): seq<Die>
      reads game
    {
      game.currentRound.dice
    }

    /** `roundNumber`. */
    function RoundNumber(): int
      reads game
    {
      game.GetCurrentRoundNumber()
    }

    /** `rollCount`. */
    function RollCount(): int
      reads game, game.currentRound
    {
      game.currentRound.rollCount
    }

    /** `maxRolls`: the round's limit. */
    function MaxRolls(): int
      reads game
    {
      game.currentRound.MaxRollsOfRound()
    }

    /** `isGameOver`. */
    predicate IsGameOver()
      reads game
    {
      game.IsGameOver()
    }

    /** `isEndOfRound`: the round allows no more rolls. */
    predicate IsEndOfRound()
      reads game, game.currentRound
      ensures Valid() ==> (IsEndOfRound() <==> RollCount() == MaxRolls())
    {
      !game.currentRound.CanRoll()
    }

    /** The score sheet as a ledger. */
    function Book(): Book<ScoreOption>
      reads this
    {
      Ledger.Book(scoreMap, remainingCategories)
    }

    /** `setScoreButtonsEnabled`. */
    method SetScoreButtonsEnabled(enabled: bool)
      modifies this
      ensures areScoreButtonsEnabled == enabled
      ensures Book() == old(Book()) && selectedCategory == old(selectedCategory) && isDiceSelected == old(isDiceSelected)
    {
      areScoreButtonsEnabled := enabled;
    }

    /** `rollDice`. At the end of the round nothing changes. Otherwise the first roll rolls
        every die and a later roll only the selected ones, the others keeping face and
        rolled flag; then every die is deselected and the roll is counted, so no die is
        selected afterwards. */
    method RollDice()
      requires Valid()
      modifies this, game.currentRound, set d | d in game.currentRound.dice
      ensures Valid()
      ensures old(RollCount()) >= MaxRolls() ==>
        RollCount() == old(RollCount()) && isDiceSelected == old(isDiceSelected) && forall d :: d in Dice() ==> unchanged(d)
      ensures old(RollCount()) < MaxRolls() ==>
        && RollCount() == old(RollCount()) + 1
        && !isDiceSelected
        && forall d :: d in Dice() ==> !d.isSelected
      ensures old(RollCount()) == 0 ==> forall d :: d in Dice() ==> 1 <= d.value <= 6 && d.hasBeenRolled
      ensures 0 < old(RollCount()) < MaxRolls() ==>
        forall d :: d in Dice() ==>
          if old(d.isSelected) then 1 <= d.value <= 6 && d.hasBeenRolled
          else d.value == old(d.value) && d.hasBeenRolled == old(d.hasBeenRolled)
      ensures Book() == old(Book()) && selectedCategory == old(selectedCategory) && areScoreButtonsEnabled == old(areScoreButtonsEnabled)
      ensures old(RollCount()) >= MaxRolls() ==> unchanged(game.currentRound)
      ensures game.currentRound.selectedCategory == old(game.currentRound.selectedCategory)
      ensures game.currentRound.isScored == old(game.currentRound.isScored)
    {
      if !game.CanRoll() {
        return;
      }
      RollTurnDice();
      diceRepository.DeselectAllDice();
      game.IncrementRollCount();
      UpdateDiceSelectionState();
    }

    /** The rolling step of `rollDice`: every die on the first roll of the round, only the
        selected ones on a later roll. */
    method RollTurnDice()
      requires Valid()
      modifies set d | d in game.currentRound.dice
      ensures Valid()
      ensures forall d :: d in Dice() ==>
        if old(RollCount()) == 0 || old(d.isSelected) then 1 <= d.value <= 6 && d.hasBeenRolled
        else d.value == old(d.value) && d.hasBeenRolled == old(d.hasBeenRolled)
    {
      if game.IsFirstRoll() {
        RollEach(Dice());
      } else {
        var selected := diceRepository.GetSelectedDice();
        RollEach(selected);
      }
    }

    /** `toggleDieSelected`: toggles the die whose identifier is `index + 1`, which is the
        die at `index`; any other index changes no die. */
    method ToggleDieSelected(index: int)
      requires Valid()
      modifies this, game.currentRound.dice
      ensures Valid()
      ensures forall i :: 0 <= i < |Dice()| && i != index ==> unchanged(Dice()[i])
      ensures 0 <= index < |Dice()| ==>
        && Dice()[index].isSelected == Toggled(old(Dice()[index].isSelected), old(Dice()[index].hasBeenRolled))
        && Dice()[index].value == old(Dice()[index].value)
        && Dice()[index].hasBeenRolled == old(Dice()[index].hasBeenRolled)
      ensures isDiceSelected <==> exists d :: d in Dice() && d.isSelected
      ensures Book() == old(Book()) && selectedCategory == old(selectedCategory) && areScoreButtonsEnabled == old(areScoreButtonsEnabled)
    {
      FindByPosition(Dice(), index);
      var die := diceRepository.GetDieById(index + 1);
      if die.Some? {
        die.value.ToggleIsSelected();
      }
      UpdateDiceSelectionState();
    }

    /** `updateDiceSelectionState`. */
    method UpdateDiceSelectionState()
      modifies this
      ensures isDiceSelected <==> exists d :: d in Dice() && d.isSelected
      ensures Book() == old(Book()) && selectedCategory == old(selectedCategory)
      ensures areScoreButtonsEnabled == old(areScoreButtonsEnabled)
    {
      isDiceSelected := AnySelected(Dice());
    }

    /** `selectCategory`. */
    method SelectCategory(category: ScoreOption)
      modifies this
      ensures selectedCategory == Some(category) && IsScoreCategoryChosen()
      ensures Book() == old(Book()) && isDiceSelected == old(isDiceSelected) && areScoreButtonsEnabled == old(areScoreButtonsEnabled)
    {
      selectedCategory := Some(category);
    }

    /** `clearSelectedCategory`. */
    method ClearSelectedCategory()
      modifies this
      ensures selectedCategory == None && !IsScoreCategoryChosen()
      ensures Book() == old(Book()) && isDiceSelected == old(isDiceSelected) && areScoreButtonsEnabled == old(areScoreButtonsEnabled)
    {
      selectedCategory := None;
    }

    /** `registerScore`: first write wins, the category leaving the open list. */
    method RegisterScore(category: ScoreOption, score: int)
      modifies this
      ensures Book() == Register(old(Book()), category, score)
      ensures selectedCategory == old(selectedCategory) && isDiceSelected == old(isDiceSelected) && areScoreButtonsEnabled == old(areScoreButtonsEnabled)
    {
      if category !in scoreMap {
        scoreMap := scoreMap[category := score];
        remainingCategories := RemoveFirst(remainingCategories, category);
      }
    }

    /** `resetForNextRound`: the round joins the history, a fresh round with every die in
        its initial state starts, and the category is cleared. The selection flag is not
        recomputed and keeps its old value. */
    method ResetForNextRound()
      requires Valid()
      modifies this, game
      ensures Valid()
      ensures game.rounds == old(game.rounds) + [old(game.currentRound)]
      ensures RoundNumber() == old(RoundNumber()) + 1
      ensures RollCount() == 0 && forall d :: d in Dice() ==> d.Initial()
      ensures game.currentRound.selectedCategory == None && !game.currentRound.isScored
      ensures game.categoryScores == old(game.categoryScores)
      ensures selectedCategory == None && isDiceSelected == old(isDiceSelected)
      ensures Book() == old(Book()) && areScoreButtonsEnabled == old(areScoreButtonsEnabled)
    {
      game.ResetRound();
      ClearSelectedCategory();
      diceRepository.DeselectAllDice();
      diceRepository.ResetDice();
    }

    /** `calculateScoreForCategory`. */
    method CalculateScoreForCategory(category: ScoreOption, selectedDice: seq<int>) returns (r: Result<int, ScoreError>)
      ensures r == Score(category, selectedDice)
    {
      r := CalculateScore(category, selectedDice);
    }

    /** `getSelectedDice`: exactly the selected dice of the current round. */
    function GetSelectedDice(): (r: seq<Die>)
      reads this, game, game.currentRound.dice
      ensures forall d :: d in r ==> d in Dice() && d.isSelected
      ensures forall d :: d in Dice() && d.isSelected ==> d in r
      ensures r == SelectedDice(Dice())
    {
      SelectedDice(Dice())
    }

    /** `getTotalScore`. */
    method GetTotalScore() returns (total: int)
      ensures total == SumValues(scoreMap)
    {
      total := TotalScore(scoreMap);
    }
  }
}
