/** The view model the game screen uses (models/GameViewModel.kt): it drives the game
    through the `GameManager`, keeps the score sheet, and saves its state after each
    change so that it can be rebuilt after the process is killed. The Android
    `SavedStateHandle` is a field holding the saved values; the callbacks of
    `completeRound` become its result. */
module ModelsViewModel {
  import opened Wrappers
  import opened ScoreOptions
  import opened ScoreCalculator
  import opened DieModel
  import opened RoundModel
  import opened GameModel
  import opened Repository
  import opened Managers
  import opened Ledger
  import opened Lists
  import UiState

  // ---------------------------------------------------------------------------
  // The saved state
  // ---------------------------------------------------------------------------

  /** What `saveGameState` writes under the keys "scoreMap", "remainingCategories",
      "rollsLeft", "roundNumber", "dice" and "scoreButtonsEnabled"; a key never written
      reads back as `None`. */
  datatype SavedState = SavedState(
    scoreMap: Option<map<string, int>>,
    remainingCategories: Option<seq<string>>,
    rollsLeft: Option<int>,
    roundNumber: Option<int>,
    dice: Option<seq<SavedDie>>,
    scoreButtonsEnabled: Option<bool>)

  /** A handle with nothing saved, as on a first start. */
  const NothingSaved: SavedState := SavedState(None, None, None, None, None, None)

  /** No two categories share a constant name. */
  lemma {:induction false} NamesInjective()
    ensures forall o, p :: Name(o) == Name(p) ==> o == p
  {
    forall o, p
      ensures Name(o) == Name(p) ==> o == p
    {
      NamesDistinct(o, p);
    }
  }

  /** `mapKeys { it.key.name }`: the scores keyed by the constant names. */
  function ExportScores(m: map<ScoreOption, int>): (r: map<string, int>)
    ensures forall o :: o in m ==> Name(o) in r && r[Name(o)] == m[o]
    ensures forall n :: n in r ==> ValueOf(n).Some? && ValueOf(n).value in m
  {
    NamesInjective();
    ValueOfNames();
    map o | o in m :: Name(o) := m[o]
  }

  /** Every key is the name of a constant, which `ScoreOption.valueOf` needs. */
  predicate ScoreNamesValid(s: map<string, int>)
  {
    forall n {:trigger ValueOf(n)} :: n in s ==> ValueOf(n).Some?
  }

  /** The `forEach` of `restoreGameState` over saved scores: each key's constant gets the
      key's score. (A key that names no constant makes `valueOf` throw; `Restorable`
      rules that out before the restore.) */
  function ImportScores(s: map<string, int>): (r: map<ScoreOption, int>)
    ensures forall o :: o in r <==> Name(o) in s
    ensures forall o :: o in r ==> r[o] == s[Name(o)]
  {
    EntriesAreAllCategories();
    map o | o in Entries && Name(o) in s :: s[Name(o)]
  }

  /** Exporting the scores and importing them back gives the same sheet. */
  lemma {:induction false} ExportImport(m: map<ScoreOption, int>)
    ensures ScoreNamesValid(ExportScores(m)) && ImportScores(ExportScores(m)) == m
  {
    var e := ExportScores(m);
    var i := ImportScores(e);
    forall o | o in m
      ensures o in i && i[o] == m[o]
    {
      ValueOfName(o);
    }
    forall o | o in i
      ensures o in m
    {
      ValueOfName(o);
    }
    assert i.Keys == m.Keys;
  }

  /** Importing saved scores whose keys are all constant names and exporting them again
      gives the same map. */
  lemma {:induction false} ImportExport(s: map<string, int>)
    requires ScoreNamesValid(s)
    ensures ExportScores(ImportScores(s)) == s
  {
    var i := ImportScores(s);
    var e := ExportScores(i);
    forall n | n in s
      ensures n in e && e[n] == s[n]
    {
      var o := ValueOf(n).value;
      assert Name(o) == n;
    }
    forall n | n in e
      ensures n in s
    {
      var o := ValueOf(n).value;
      assert Name(o) in s;
    }
    assert e.Keys == s.Keys;
  }

  /** `map { it.name }` on the open categories. */
  function SaveNames(os: seq<ScoreOption>): (r: seq<string>)
    ensures |r| == |os| && forall i :: 0 <= i < |os| ==> r[i] == Name(os[i])
  {
    seq(|os|, i requires 0 <= i < |os| => Name(os[i]))
  }

  /** Every saved name is the name of a constant. */
  predicate NamesValid(ns: seq<string>)
  {
    forall i {:trigger ValueOf(ns[i])} :: 0 <= i < |ns| ==> ValueOf(ns[i]).Some?
  }

  /** `map { name -> ScoreOption.valueOf(name) }`. */
  function RestoreNames(ns: seq<string>): (r: seq<ScoreOption>)
    requires NamesValid(ns)
    ensures |r| == |ns| && forall i :: 0 <= i < |ns| ==> Name(r[i]) == ns[i]
  {
    seq(|ns|, i requires 0 <= i < |ns| && NamesValid(ns) => ValueOf(ns[i]).value)
  }

  /** Saving the open categories by name and reading them back gives the same list, and
      the other way round for names that are all valid. */
  lemma {:induction false} NamesRoundTrip(os: seq<ScoreOption>, ns: seq<string>)
    ensures NamesValid(SaveNames(os)) && RestoreNames(SaveNames(os)) == os
    ensures NamesValid(ns) ==> SaveNames(RestoreNames(ns)) == ns
  {
    forall i | 0 <= i < |os|
      ensures ValueOf(SaveNames(os)[i]) == Some(os[i])
    {
      ValueOfName(os[i]);
    }
  }

  /** One saved die: `mapOf("value" to …, "isSelected" to …, "hasBeenRolled" to …)`. It
      has the three entries `restoreDice` accepts, each holding the field it was made from. */
  function SavedDieOf(value: int, isSelected: bool, hasBeenRolled: bool): (r: SavedDie)
    ensures WellTyped(r)
    ensures r["value"].i == value && r["isSelected"].b == isSelected && r["hasBeenRolled"].b == hasBeenRolled
  {
    map["value" := IntValue(value), "isSelected" := BoolValue(isSelected), "hasBeenRolled" := BoolValue(hasBeenRolled)]
  }

  /** `dice.map { … }`: one saved die per die, in order. */
  function SavedDice(ds: seq<Die>): (r: seq<SavedDie>)
    reads ds
    ensures |r| == |ds|
    ensures forall i :: 0 <= i < |ds| ==>
      && WellTyped(r[i])
      && r[i]["value"].i == ds[i].value && r[i]["isSelected"].b == ds[i].isSelected && r[i]["hasBeenRolled"].b == ds[i].hasBeenRolled
  {
    seq(|ds|, i requires 0 <= i < |ds| reads ds => SavedDieOf(ds[i].value, ds[i].isSelected, ds[i].hasBeenRolled))
  }

  /** What `saveGameState` writes, given the values it reads. */
  function Save(scores: map<ScoreOption, int>, remaining: seq<ScoreOption>, rollCount: int, roundNumber: int,
                dice: seq<SavedDie>, scoreButtonsEnabled: bool): SavedState
  {
    SavedState(Some(ExportScores(scores)), Some(SaveNames(remaining)), Some(RollsPerRound - rollCount),
               Some(roundNumber), Some(dice), Some(scoreButtonsEnabled))
  }

  /** What `restoreGameState` needs so that no `valueOf` throws. */
  predicate Restorable(saved: SavedState)
  {
    && (saved.scoreMap.Some? ==> ScoreNamesValid(saved.scoreMap.value))
    && (saved.remainingCategories.Some? ==> NamesValid(saved.remainingCategories.value))
  }

  /** `restoreRollCount`'s bounds. */
  function Clamp(count: int): (r: int)
    ensures 0 <= r <= MaxRolls
    ensures 0 <= count <= MaxRolls ==> r == count
  {
    if count < 0 then 0 else if count > MaxRolls then MaxRolls else count
  }

  /** The score sheet a new view model restores: the saved scores, or none. */
  function RestoredScores(saved: SavedState): map<ScoreOption, int>
    requires Restorable(saved)
  {
    if saved.scoreMap.Some? then ImportScores(saved.scoreMap.value) else map[]
  }

  /** The open categories a new view model restores: the saved ones, or all ten. */
  function RestoredRemaining(saved: SavedState): seq<ScoreOption>
    requires Restorable(saved)
  {
    if saved.remainingCategories.Some? then RestoreNames(saved.remainingCategories.value) else Entries
  }

  /** The roll count a new view model restores: `ROLLS_PER_ROUND` minus the rolls left,
      or no roll. */
  function RestoredRollCount(saved: SavedState): int
  {
    if saved.rollsLeft.Some? then Clamp(RollsPerRound - saved.rollsLeft.value) else 0
  }

  /** `scoreButtonsEnabled ?: false`. */
  function RestoredButtons(saved: SavedState): bool
  {
    saved.scoreButtonsEnabled == Some(true)
  }

  /** What is saved is restored: the score sheet, the open categories in order, the roll
      count and the score buttons come back as they were. */
  lemma {:induction false} SaveRestoreRoundTrip(scores: map<ScoreOption, int>, remaining: seq<ScoreOption>, rollCount: int,
                             roundNumber: int, dice: seq<SavedDie>, scoreButtonsEnabled: bool)
    requires 0 <= rollCount <= RollsPerRound
    ensures Restorable(Save(scores, remaining, rollCount, roundNumber, dice, scoreButtonsEnabled))
    ensures RestoredScores(Save(scores, remaining, rollCount, roundNumber, dice, scoreButtonsEnabled)) == scores
    ensures RestoredRemaining(Save(scores, remaining, rollCount, roundNumber, dice, scoreButtonsEnabled)) == remaining
    ensures RestoredRollCount(Save(scores, remaining, rollCount, roundNumber, dice, scoreButtonsEnabled)) == rollCount
    ensures RestoredButtons(Save(scores, remaining, rollCount, roundNumber, dice, scoreButtonsEnabled)) == scoreButtonsEnabled
  {
    ExportImport(scores);
    NamesRoundTrip(remaining, []);
  }

  /** A new view model starts with every category open and none scored, each once. */
  lemma {:induction false} InitialSheet()
    ensures Accounted(Entries, Book(map[], Entries)) && ScoredNotOpen(Book(map[], Entries))
    ensures NoDuplicates(Entries)
  {
    EntriesAreAllCategories();
  }

  // ---------------------------------------------------------------------------
  // The view model
  // ---------------------------------------------------------------------------

  class GameViewModel {
    const game: Game
    const diceRepository: DefaultDiceRepository
    const gameManager: GameManager
    var selectedCategory: Option<ScoreOption>
    var scoreMap: map<ScoreOption, int>
    var remainingCategories: seq<ScoreOption>
    var areScoreButtonsEnabled: bool
    var isDiceSelected: bool
    var wasStateRestored: bool
    /** The `SavedStateHandle`. */
    var savedState: SavedState

    /** The manager and the repository work on this view model's game. */
    ghost predicate Valid()
      reads game, game.currentRound
    {
      && game.Valid()
      && gameManager.game == game && gameManager.diceRepository == diceRepository
      && diceRepository.game == game
    }

    /** `dice`. */
    function Dice(): seq<Die>
      reads game
    {
      game.currentRound.dice
    }

    /** `rollCount`. */
    function RollCount(): int
      reads game, game.currentRound
    {
      game.currentRound.rollCount
    }

    /** `rollsLeft`: the rolls still allowed this round. */
    function RollsLeft(): (r: int)
      reads game, game.currentRound
      ensures Valid() ==> 0 <= r <= RollsPerRound
      ensures r == 0 <==> RollCount() == RollsPerRound
    {
      RollsPerRound - RollCount()
    }

    /** `roundNumber`. */
    function RoundNumber(): int
      reads game
    {
      game.GetCurrentRoundNumber()
    }

    /** `isGameOver`. */
    predicate IsGameOver()
      reads game
    {
      game.IsGameOver()
    }

    /** The score sheet as a ledger. */
    function Book(): Book<ScoreOption>
      reads this
    {
      Ledger.Book(scoreMap, remainingCategories)
    }

    /** What `saveGameState` would write now. */
    function Snapshot(): SavedState
      reads this, game, game.currentRound, game.currentRound.dice
    {
      Save(scoreMap, remainingCategories, RollCount(), RoundNumber(), SavedDice(Dice()), areScoreButtonsEnabled)
    }

    /** `init`: a new game on its first round, with whatever `saved` holds put back. The
        saved round number is not put back. */
    constructor (saved: SavedState)
      requires Restorable(saved)
      ensures Valid() && fresh(game) && wasStateRestored && savedState == saved
      ensures selectedCategory == None && RoundNumber() == 1
      ensures scoreMap == RestoredScores(saved) && remainingCategories == RestoredRemaining(saved)
      ensures RollCount() == RestoredRollCount(saved)
      ensures areScoreButtonsEnabled == RestoredButtons(saved)
      ensures forall i :: 0 <= i < |Dice()| ==>
        if saved.dice.Some? && i < |saved.dice.value| && WellTyped(saved.dice.value[i]) then
          && Dice()[i].value == saved.dice.value[i]["value"].i
          && Dice()[i].isSelected == saved.dice.value[i]["isSelected"].b
          && Dice()[i].hasBeenRolled == saved.dice.value[i]["hasBeenRolled"].b
        else Dice()[i].Initial()
      ensures isDiceSelected <==> exists d :: d in Dice() && d.isSelected
    {
      var g := new Game();
      var repository := new DefaultDiceRepository(g);
      var manager := new GameManager(g, repository);
      game := g;
      diceRepository := repository;
      gameManager := manager;
      selectedCategory := None;
      scoreMap := map[];
      remainingCategories := Entries;
      areScoreButtonsEnabled := false;
      isDiceSelected := false;
      wasStateRestored := false;
      savedState := saved;
      new;
      RestoreGameState();
      assert map[] + RestoredScores(saved) == RestoredScores(saved);
    }

    /** `rollDice`: the manager rolls, the selection flag follows the dice, and the state
        is saved. */
    method RollDice()
      requires Valid()
      modifies this, game.currentRound, set d | d in game.currentRound.dice
      ensures Valid()
      ensures RollCount() == if old(RollCount()) < RollsPerRound then old(RollCount()) + 1 else old(RollCount())
      ensures forall d :: d in Dice() ==> d.isSelected == old(d.isSelected)
      ensures old(RollCount()) < RollsPerRound ==>
        forall d :: d in Dice() && (old(RollCount()) == 0 || d.isSelected) ==> 1 <= d.value <= 6 && d.hasBeenRolled
      ensures 0 < old(RollCount()) < RollsPerRound ==>
        forall d :: d in Dice() && !d.isSelected ==> d.value == old(d.value) && d.hasBeenRolled == old(d.hasBeenRolled)
      ensures old(RollCount()) >= RollsPerRound ==> forall d :: d in Dice() ==> unchanged(d)
      ensures old(RollCount()) >= RollsPerRound ==> unchanged(game.currentRound)
      ensures game.currentRound.selectedCategory == old(game.currentRound.selectedCategory)
      ensures game.currentRound.isScored == old(game.currentRound.isScored)
      ensures isDiceSelected <==> exists d :: d in Dice() && d.isSelected
      ensures Book() == old(Book()) && selectedCategory == old(selectedCategory)
      ensures areScoreButtonsEnabled == old(areScoreButtonsEnabled) && wasStateRestored == old(wasStateRestored)
      ensures savedState == Snapshot()
    {
      RollRound();
      UpdateDiceSelectionState();
      SaveGameState();
    }

    /** The manager's part of `rollDice`, seen through this view model's queries. */
    method RollRound()
      requires Valid()
      modifies game.currentRound, set d | d in game.currentRound.dice
      ensures Valid()
      ensures RollCount() == if old(RollCount()) < RollsPerRound then old(RollCount()) + 1 else old(RollCount())
      ensures forall d :: d in Dice() ==> d.isSelected == old(d.isSelected)
      ensures old(RollCount()) < RollsPerRound ==>
        forall d :: d in Dice() && (old(RollCount()) == 0 || d.isSelected) ==> 1 <= d.value <= 6 && d.hasBeenRolled
      ensures 0 < old(RollCount()) < RollsPerRound ==>
        forall d :: d in Dice() && !d.isSelected ==> d.value == old(d.value) && d.hasBeenRolled == old(d.hasBeenRolled)
      ensures old(RollCount()) >= RollsPerRound ==> forall d :: d in Dice() ==> unchanged(d)
      ensures old(RollCount()) >= RollsPerRound ==> unchanged(game.currentRound)
      ensures game.currentRound.selectedCategory == old(game.currentRound.selectedCategory)
      ensures game.currentRound.isScored == old(game.currentRound.isScored)
    {
      assert RollCount() == gameManager.RollCount();
      gameManager.RollDice();
      assert Dice() == gameManager.Dice() && RollCount() == gameManager.RollCount();
    }

    /** `prepareForNextRoll`: every die deselected, and the state saved. */
    method PrepareForNextRoll()
      requires Valid()
      modifies this, game.currentRound.dice
      ensures Valid()
      ensures forall d :: d in Dice() ==> !d.isSelected && d.value == old(d.value) && d.hasBeenRolled == old(d.hasBeenRolled)
      ensures !isDiceSelected
      ensures Book() == old(Book()) && selectedCategory == old(selectedCategory)
      ensures areScoreButtonsEnabled == old(areScoreButtonsEnabled) && wasStateRestored == old(wasStateRestored)
      ensures savedState == Snapshot()
    {
      gameManager.PrepareForNextRoll();
      assert Dice() == gameManager.Dice();
      UpdateDiceSelectionState();
      SaveGameState();
    }

    /** `toggleDieSelected`: before the first roll nothing changes; afterwards the die at
        `index` is toggled and the selection flag follows. The state is not saved. */
    method ToggleDieSelected(index: int)
      requires Valid()
      modifies this, game.currentRound.dice
      ensures Valid()
      ensures old(RollCount()) == 0 ==> forall d :: d in Dice() ==> unchanged(d)
      ensures old(RollCount()) == 0 ==> isDiceSelected == old(isDiceSelected)
      ensures forall i :: 0 <= i < |Dice()| && i != index ==> unchanged(Dice()[i])
      ensures old(RollCount()) > 0 && 0 <= index < |Dice()| ==>
        Dice()[index].isSelected == Toggled(old(Dice()[index].isSelected), old(Dice()[index].hasBeenRolled))
      ensures 0 <= index < |Dice()| ==>
        Dice()[index].value == old(Dice()[index].value) && Dice()[index].hasBeenRolled == old(Dice()[index].hasBeenRolled)
      ensures old(RollCount()) > 0 ==> (isDiceSelected <==> exists d :: d in Dice() && d.isSelected)
      ensures Book() == old(Book()) && savedState == old(savedState) && selectedCategory == old(selectedCategory)
      ensures areScoreButtonsEnabled == old(areScoreButtonsEnabled) && wasStateRestored == old(wasStateRestored)
    {
      if RollCount() > 0 {
        gameManager.ToggleDieSelected(index);
        assert Dice() == gameManager.Dice();
        UpdateDiceSelectionState();
      }
    }

    /** `getInstructionText`, with the category chosen exactly when one is selected. */
    function GetInstruction(): (r: UiState.Instruction)
      reads this, game, game.currentRound
      ensures r == UiState.Start <==> RollCount() == 0
      ensures r.ScoringIn? <==> RollCount() != 0 && selectedCategory.Some?
      ensures r.ScoringIn? ==> r.categoryLabel == Label(selectedCategory.value)
      ensures r == UiState.RoundOver <==> RollCount() != 0 && selectedCategory.None? && RollsLeft() <= 0
    {
      UiState.GetInstruction(RollCount(), selectedCategory.Some?, selectedCategory, RollsPerRound)
    }

    /** `getDieColor`: gray once no rolls remain unless selected. */
    function GetDieColor(die: Die): (c: UiState.DieColor)
      reads this, game, game.currentRound, die
      ensures c == UiState.Red <==> die.hasBeenRolled && die.isSelected
      ensures c == UiState.White <==> die.hasBeenRolled && !die.isSelected && RollsLeft() > 0
    {
      UiState.GetDieColor(die, RollCount() >= RollsPerRound)
    }

    /** `completeRound`: scores the selected dice in `category`. A failure changes nothing
        and is returned; a success records the score as `registerScore` does, starts a new
        round, saves the state and returns whether the game is over. */
    method CompleteRound(category: ScoreOption) returns (r: Result<bool, ScoreError>)
      requires Valid()
      modifies this, game
      ensures Valid()
      ensures r.Success? <==> Score(category, old(Faces(SelectedDice(Dice())))).Success?
      ensures r.Failure? ==> r.error == Score(category, old(Faces(SelectedDice(Dice())))).error
      ensures r.Failure? ==> Book() == old(Book()) && game.rounds == old(game.rounds) && game.currentRound == old(game.currentRound)
      ensures r.Failure? ==> game.categoryScores == old(game.categoryScores)
      ensures r.Success? ==>
        game.categoryScores == old(game.categoryScores)[category := Score(category, old(Faces(SelectedDice(Dice())))).value]
      ensures r.Failure? ==> savedState == old(savedState)
      ensures selectedCategory == old(selectedCategory) && isDiceSelected == old(isDiceSelected)
      ensures areScoreButtonsEnabled == old(areScoreButtonsEnabled) && wasStateRestored == old(wasStateRestored)
      ensures r.Success? ==>
        && Book() == Register(old(Book()), category, Score(category, old(Faces(SelectedDice(Dice())))).value)
        && game.rounds == old(game.rounds) + [old(game.currentRound)]
        && RollCount() == 0 && game.currentRound.DiceInitial()
        && game.currentRound.selectedCategory == None && !game.currentRound.isScored
        && r.value == IsGameOver() && savedState == Snapshot()
    {
      var result := gameManager.CompleteRound(category);
      r := HandleScoreResult(category, result);
    }

    /** `handleScoreResult`: on success registers the score, saves, and reports whether the
        game is over; a failure is passed on. */
    method HandleScoreResult(category: ScoreOption, result: Result<int, ScoreError>) returns (r: Result<bool, ScoreError>)
      modifies this
      ensures r.Success? <==> result.Success?
      ensures r.Failure? ==> r.error == result.error && Book() == old(Book()) && savedState == old(savedState)
      ensures r.Success? ==> Book() == Register(old(Book()), category, result.value) && r.value == IsGameOver()
      ensures r.Success? ==> savedState == Snapshot()
      ensures selectedCategory == old(selectedCategory) && isDiceSelected == old(isDiceSelected)
      ensures areScoreButtonsEnabled == old(areScoreButtonsEnabled) && wasStateRestored == old(wasStateRestored)
    {
      if result.Success? {
        RegisterScore(category, result.value);
        SaveGameState();
        r := Success(IsGameOver());
      } else {
        r := Failure(result.error);
      }
    }

    /** `isRollButtonEnabled`: before the first roll, or with a die selected, as long as
        rolls remain. */
    predicate IsRollButtonEnabled()
      reads this, game, game.currentRound
      ensures IsRollButtonEnabled() ==> RollsLeft() > 0
      ensures Valid() && RollCount() == 0 ==> IsRollButtonEnabled()
      ensures RollCount() > 0 && !isDiceSelected ==> !IsRollButtonEnabled()
    {
      (RollCount() == 0 || isDiceSelected) && RollCount() < RollsPerRound
    }

    /** `selectCategory`. */
    method SelectCategory(category: ScoreOption)
      modifies this
      ensures selectedCategory == Some(category)
      ensures Book() == old(Book()) && savedState == old(savedState) && isDiceSelected == old(isDiceSelected)
      ensures areScoreButtonsEnabled == old(areScoreButtonsEnabled) && wasStateRestored == old(wasStateRestored)
    {
      selectedCategory := Some(category);
    }

    /** `clearSelectedCategory`. */
    method ClearSelectedCategory()
      modifies this
      ensures selectedCategory == None
      ensures Book() == old(Book()) && savedState == old(savedState) && isDiceSelected == old(isDiceSelected)
      ensures areScoreButtonsEnabled == old(areScoreButtonsEnabled) && wasStateRestored == old(wasStateRestored)
    {
      selectedCategory := None;
    }

    /** `setScoreButtonsEnabled`. */
    method SetScoreButtonsEnabled(enabled: bool)
      modifies this
      ensures areScoreButtonsEnabled == enabled
      ensures Book() == old(Book()) && savedState == old(savedState) && selectedCategory == old(selectedCategory)
      ensures isDiceSelected == old(isDiceSelected) && wasStateRestored == old(wasStateRestored)
    {
      areScoreButtonsEnabled := enabled;
    }

    /** `getTotalScore`: the sum of the recorded scores. */
    method GetTotalScore() returns (total: int)
      ensures total == SumValues(scoreMap)
    {
      total := TotalScore(scoreMap);
    }

    /** `isNextRoundButtonEnabled`: a category is chosen and a die is selected. */
    predicate IsNextRoundButtonEnabled()
      reads this
    {
      selectedCategory.Some? && isDiceSelected
    }

    /** `prepareRoundForUI`. */
    method PrepareRoundForUI()
      requires Valid()
      modifies this, game.currentRound.dice
      ensures Valid() && selectedCategory == None && !IsNextRoundButtonEnabled()
      ensures forall d :: d in Dice() ==> d.Initial()
      ensures old(wasStateRestored) ==> areScoreButtonsEnabled == old(areScoreButtonsEnabled)
      ensures !old(wasStateRestored) ==> !areScoreButtonsEnabled
      ensures Book() == old(Book()) && savedState == Snapshot()
      ensures isDiceSelected == old(isDiceSelected) && wasStateRestored == old(wasStateRestored)
    {
      ResetRound();
    }

    /** `resetRound`: no category, every die reset, the score buttons disabled unless
        the state was restored, and the state saved. Since `init` always restores, the
        buttons are in fact never disabled here. The selection flag is left as it was. */
    method ResetRound()
      requires Valid()
      modifies this, game.currentRound.dice
      ensures Valid() && selectedCategory == None && !IsNextRoundButtonEnabled()
      ensures forall d :: d in Dice() ==> d.Initial()
      ensures isDiceSelected == old(isDiceSelected) && wasStateRestored == old(wasStateRestored)
      ensures old(wasStateRestored) ==> areScoreButtonsEnabled == old(areScoreButtonsEnabled)
      ensures !old(wasStateRestored) ==> !areScoreButtonsEnabled
      ensures Book() == old(Book()) && savedState == Snapshot()
    {
      ClearSelectedCategory();
      gameManager.ResetDice();
      if !wasStateRestored {
        SetScoreButtonsEnabled(false);
      }
      SaveGameState();
    }

    /** `registerScore`: an unscored category gets its score, leaves the open list, and
        the state is saved; a scored category changes nothing. */
    method RegisterScore(category: ScoreOption, score: int)
      modifies this
      ensures Book() == Register(old(Book()), category, score)
      ensures category in old(scoreMap) ==> savedState == old(savedState)
      ensures category !in old(scoreMap) ==> savedState == Snapshot()
      ensures selectedCategory == old(selectedCategory) && isDiceSelected == old(isDiceSelected)
      ensures areScoreButtonsEnabled == old(areScoreButtonsEnabled) && wasStateRestored == old(wasStateRestored)
    {
      if category !in scoreMap {
        scoreMap := scoreMap[category := score];
        remainingCategories := RemoveFirst(remainingCategories, category);
        SaveGameState();
      }
    }

    /** `getExportableScores`: the scores keyed by constant name; importing them gives the
        score sheet back. */
    function GetExportableScores(): (r: map<string, int>)
      reads this
      ensures ScoreNamesValid(r) && ImportScores(r) == scoreMap
    {
      ExportImport(scoreMap);
      ExportScores(scoreMap)
    }

    /** `updateDiceSelectionState`: whether any die is selected. */
    method UpdateDiceSelectionState()
      modifies this
      ensures isDiceSelected <==> exists d :: d in Dice() && d.isSelected
      ensures Book() == old(Book()) && savedState == old(savedState) && selectedCategory == old(selectedCategory)
      ensures areScoreButtonsEnabled == old(areScoreButtonsEnabled) && wasStateRestored == old(wasStateRestored)
    {
      isDiceSelected := AnySelected(Dice());
    }

    /** `saveGameState`. */
    method SaveGameState()
      modifies this
      ensures savedState == Snapshot()
      ensures Book() == old(Book()) && selectedCategory == old(selectedCategory) && isDiceSelected == old(isDiceSelected)
      ensures areScoreButtonsEnabled == old(areScoreButtonsEnabled) && wasStateRestored == old(wasStateRestored)
    {
      savedState := Snapshot();
    }

    /** The `forEach` over the saved scores in `restoreGameState`: each saved score is
        written under its category, so the sheet gains the imported scores. */
    method RestoreScores(saved: map<string, int>)
      requires ScoreNamesValid(saved)
      modifies this
      ensures scoreMap == old(scoreMap) + ImportScores(saved)
      ensures remainingCategories == old(remainingCategories) && savedState == old(savedState)
      ensures selectedCategory == old(selectedCategory) && isDiceSelected == old(isDiceSelected)
      ensures areScoreButtonsEnabled == old(areScoreButtonsEnabled) && wasStateRestored == old(wasStateRestored)
    {
      scoreMap := ImportInto(scoreMap, saved);
    }

    /** The part of `restoreGameState` that puts back the round: the saved rolls left set
        the roll count, the saved round number is passed on to no effect, and the saved
        dice are written back. Nothing of the view model itself changes. */
    method RestoreRound()
      requires Valid()
      modifies game.currentRound, game.currentRound.dice
      ensures Valid()
      ensures RollCount()
           == if savedState.rollsLeft.Some? then Clamp(RollsPerRound - savedState.rollsLeft.value) else old(RollCount())
      ensures RoundNumber() == old(RoundNumber())
      ensures forall i :: 0 <= i < |Dice()| ==>
        if savedState.dice.Some? && i < |savedState.dice.value| && WellTyped(savedState.dice.value[i]) then
          && Dice()[i].value == savedState.dice.value[i]["value"].i
          && Dice()[i].isSelected == savedState.dice.value[i]["isSelected"].b
          && Dice()[i].hasBeenRolled == savedState.dice.value[i]["hasBeenRolled"].b
        else unchanged(Dice()[i])
      ensures game.currentRound.selectedCategory == old(game.currentRound.selectedCategory)
      ensures game.currentRound.isScored == old(game.currentRound.isScored)
    {
      if savedState.rollsLeft.Some? {
        var rollCount := RollsPerRound - savedState.rollsLeft.value;
        gameManager.RestoreRollCount(rollCount);
        assert RollCount() == gameManager.RollCount();
      }

      if savedState.roundNumber.Some? {
        gameManager.RestoreRoundNumber(savedState.roundNumber.value);
      }

      assert Dice() == gameManager.Dice();
      if savedState.dice.Some? {
        gameManager.RestoreDice(savedState.dice.value);
      }

    }

    /** `restoreGameState`: saved scores are added to the sheet, a saved open list replaces
        the current one, saved rolls left set the roll count, saved dice are written back,
        the score buttons take the saved flag or are disabled, and the state counts as
        restored. The saved round number is passed on and has no effect. */
    method RestoreGameState()
      requires Valid() && Restorable(savedState)
      modifies this, game.currentRound, game.currentRound.dice
      ensures Valid() && wasStateRestored && savedState == old(savedState)
      ensures scoreMap == old(scoreMap) + RestoredScores(savedState)
      ensures remainingCategories
           == if savedState.remainingCategories.Some? then RestoreNames(savedState.remainingCategories.value) else old(remainingCategories)
      ensures RollCount()
           == if savedState.rollsLeft.Some? then Clamp(RollsPerRound - savedState.rollsLeft.value) else old(RollCount())
      ensures RoundNumber() == old(RoundNumber()) && selectedCategory == old(selectedCategory)
      ensures forall i :: 0 <= i < |Dice()| ==>
        if savedState.dice.Some? && i < |savedState.dice.value| && WellTyped(savedState.dice.value[i]) then
          && Dice()[i].value == savedState.dice.value[i]["value"].i
          && Dice()[i].isSelected == savedState.dice.value[i]["isSelected"].b
          && Dice()[i].hasBeenRolled == savedState.dice.value[i]["hasBeenRolled"].b
        else unchanged(Dice()[i])
      ensures areScoreButtonsEnabled == RestoredButtons(savedState)
      ensures isDiceSelected <==> exists d :: d in Dice() && d.isSelected
      ensures game.currentRound.selectedCategory == old(game.currentRound.selectedCategory)
      ensures game.currentRound.isScored == old(game.currentRound.isScored)
    {
      RestoreSheet();
      RestoreRound();
      areScoreButtonsEnabled := savedState.scoreButtonsEnabled == Some(true);
      UpdateDiceSelectionState();
      SetScoreButtonsEnabled(areScoreButtonsEnabled);
      wasStateRestored := true;
    }

    /** The part of `restoreGameState` that puts back the score sheet: the saved scores are
        written over the current ones and a saved list of open categories replaces the
        current one. */
    method RestoreSheet()
      requires Restorable(savedState)
      modifies this
      ensures savedState == old(savedState) && selectedCategory == old(selectedCategory)
      ensures isDiceSelected == old(isDiceSelected)
      ensures scoreMap == old(scoreMap) + RestoredScores(savedState)
      ensures remainingCategories
           == if savedState.remainingCategories.Some? then RestoreNames(savedState.remainingCategories.value) else old(remainingCategories)
      ensures areScoreButtonsEnabled == old(areScoreButtonsEnabled) && wasStateRestored == old(wasStateRestored)
    {
      if savedState.scoreMap.Some? {
        RestoreScores(savedState.scoreMap.value);
      } else {
        assert scoreMap + map[] == scoreMap;
      }
      if savedState.remainingCategories.Some? {
        remainingCategories := RestoreNames(savedState.remainingCategories.value);
      }
    }
  }

  /** The `forEach` loop of `restoreGameState` over the saved scores: each saved score is
      written into the sheet under the constant its key names. */
  method ImportInto(sheet: map<ScoreOption, int>, saved: map<string, int>) returns (r: map<ScoreOption, int>)
    requires ScoreNamesValid(saved)
    ensures r == sheet + ImportScores(saved)
  {
    r := sheet;
    var pending := saved.Keys;
    while pending != {}
      invariant pending <= saved.Keys
      invariant r == sheet + ImportScores(saved - pending)
      decreases |pending|
    {
      var key :| key in pending;
      ImportStep(sheet, saved, pending, key);
      r := r[ValueOf(key).value := saved[key]];
      pending := pending - {key};
    }
    assert saved - {} == saved;
  }

  /** Importing one more saved score, `key`, adds it to a sheet that already holds the
      scores of the keys outside `pending`. */
  lemma {:induction false} ImportStep(base: map<ScoreOption, int>, saved: map<string, int>, pending: set<string>, key: string)
    requires ValueOf(key).Some? && key in pending && pending <= saved.Keys
    ensures base + ImportScores(saved - (pending - {key}))
         == (base + ImportScores(saved - pending))[ValueOf(key).value := saved[key]]
  {
    var done := saved - pending;
    assert saved - (pending - {key}) == done[key := saved[key]];
    ImportOne(done, key, saved[key]);
    UnionUpdate(base, ImportScores(done), ValueOf(key).value, saved[key]);
  }

  /** Importing one more saved score updates the imported sheet at that category. */
  lemma {:induction false} ImportOne(done: map<string, int>, key: string, v: int)
    requires ValueOf(key).Some?
    ensures ImportScores(done[key := v]) == ImportScores(done)[ValueOf(key).value := v]
  {
    var a := ImportScores(done[key := v]);
    var b := ImportScores(done)[ValueOf(key).value := v];
    NamesInjective();
    assert a.Keys == b.Keys;
  }

  /** Updating the right operand of a union updates the union. */
  lemma {:induction false} UnionUpdate<K, V>(base: map<K, V>, x: map<K, V>, k: K, v: V)
    ensures base + x[k := v] == (base + x)[k := v]
  {
  }
}
