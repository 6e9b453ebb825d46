# Thirty: the rule engine, modelled and proved in Dafny

Thirty is a dice game. Each round has up to three rolls of six dice. After the first roll, the player keeps some dice and rerolls the selected ones. At the end of the round, the player scores the dice in one of ten categories, each category once in a game of ten rounds.

- `LOW` scores the sum of the dice showing 3 or less.
- The categories `4` to `12` need an exact cover. The selected dice must split into disjoint groups that each add up to the category's number and together use every selected die. The score is then the sum of the dice.

This project models the Kotlin engine behind the Android app in these modules:

- **`ScoreOptions`** (`score_option.dfy`): the ten categories, their labels and constant names. It also covers `fromLabel`, `valueOf`, and Kotlin's `toIntOrNull` applied to a label.
- **`ScoreCalculator`** (`score_calculator.dfy`): the scoring.
  - `Score` is the whole calculation as a function.
  - `CalculateScore` follows the program's own procedure. Its subset enumeration is the backtracking class `SubsetGenerator`, whose lists change in place. The procedure is proved to compute `Score`.
- **`ScoreCalculatorProofs`** (`score_calculator_proofs.dfy`): what the scoring means. An exact cover is defined without any search. The search is proved to find one exactly when one exists. The score is proved to be the sum of the dice, a multiple of the target.
- **`DieModel`, `RoundModel`, `GameModel`** (`die.dfy`, `round.dfy`, `game.dfy`): the state machine die → round → game, as classes whose fields change in place.
- **`Managers`** (`game_manager.dfy`): the driver that rolls, toggles, scores a round and writes saved state back.
- **`Repository`, `Services`** (`repository.dfy`, `dice_store.dfy`): the dice repository and the older shared dice list.
- **`Ledger`, `Lists`** (`ledger.dfy`, `lists.dfy`): the score sheet that the three view models keep, with a first-write-wins `registerScore` and a total. `Lists` holds the two list removals the program uses.
- **`ModelsViewModel`** (`models_view_model.dfy`): the view model in `models/`. Its saved state is a record, and its save/restore round trip is proved.
- **`AppViewModel`** (`app_view_model.dfy`): the older view model at the package root.
- **`ThirtyDiceViewModel`** (`thirty_dice_view_model.dfy`): the string-keyed view model.
- **`UiState`** (`ui_state.dfy`): the die colour and the choice of instruction. The instruction is an enum, not a localised string.
- **`Wrappers`** (`wrappers.dfy`): `Option` and `Result`. They stand in for Kotlin's nullable types and `Result<T>`.

The random face of `Die.roll` is an arbitrary choice in 1..6. So every property about rolling holds whatever faces come up.

Source paths below are relative to the repository root. All classes live under `app/src/main/java/com/emmeliejohansson/thirtydicegame/`.

## Model

| member | source | states |
|---|---|---|
| ScoreOptions.EntriesAreAllCategories | app/src/main/java/com/emmeliejohansson/thirtydicegame/models/ScoreOption.kt:3-13 | `entries` lists exactly ten categories, each constant once, `LOW` first |
| ScoreOptions.LabelsDistinct | app/src/main/java/com/emmeliejohansson/thirtydicegame/models/ScoreOption.kt:4-13 | two categories with the same label are the same category |
| ScoreOptions.NamesDistinct | app/src/main/java/com/emmeliejohansson/thirtydicegame/models/ScoreOption.kt:3-13 | two categories with the same constant name are the same category |
| ScoreOptions.FirstWithLabel | app/src/main/java/com/emmeliejohansson/thirtydicegame/models/ScoreOption.kt:18-19 | `firstOrNull`: what it finds is in the list and carries the label; it finds nothing exactly when no entry carries the label |
| ScoreOptions.FirstWithLabelIsFirst | app/src/main/java/com/emmeliejohansson/thirtydicegame/models/ScoreOption.kt:18-19 | the entry found is the first one carrying the label: every entry before it carries another |
| ScoreOptions.FromLabel | app/src/main/java/com/emmeliejohansson/thirtydicegame/models/ScoreOption.kt:18-19 | `fromLabel` returns a category with that label, and null exactly when no category has it |
| ScoreOptions.FromLabelOfLabel | app/src/main/java/com/emmeliejohansson/thirtydicegame/models/ScoreOption.kt:4-19 | `fromLabel(o.label) == o` for every category |
| ScoreOptions.ValueOf | app/src/main/java/com/emmeliejohansson/thirtydicegame/models/GameViewModel.kt:203 | `ScoreOption.valueOf`: a name it accepts is the name of the constant it returns |
| ScoreOptions.ValueOfName | app/src/main/java/com/emmeliejohansson/thirtydicegame/models/GameViewModel.kt:203 | `valueOf(o.name) == o` for a given category |
| ScoreOptions.ValueOfNames | app/src/main/java/com/emmeliejohansson/thirtydicegame/models/GameViewModel.kt:183-209 | `valueOf` inverts `name` on every category, so names saved by the view model read back as the same categories |
| ScoreOptions.ParseInt | app/src/main/java/com/emmeliejohansson/thirtydicegame/models/ScoreCalculator.kt:45 | `toIntOrNull`: a parsed value is in the 32-bit `Int` range, and it comes only from a non-empty string of digits after an optional sign |
| ScoreOptions.ParseDecimal | app/src/main/java/com/emmeliejohansson/thirtydicegame/models/ScoreCalculator.kt:45 | `toIntOrNull` reads back the decimal rendering of every non-negative `Int` |
| ScoreOptions.Target | app/src/main/java/com/emmeliejohansson/thirtydicegame/models/ScoreOption.kt:5-13 | each numeric label is the decimal rendering of a number from 4 to 12, and it parses to that number |
| ScoreOptions.LowLabelDoesNotParse | app/src/main/java/com/emmeliejohansson/thirtydicegame/models/ScoreOption.kt:4 | the label "Low" does not parse as a number |
| ScoreCalculator.SubsetGenerator.constructor | app/src/main/java/com/emmeliejohansson/thirtydicegame/models/ScoreCalculator.kt:65-85 | phase one starts with no candidates and an empty current subset |
| ScoreCalculator.SubsetGenerator.Generate | app/src/main/java/com/emmeliejohansson/thirtydicegame/models/ScoreCalculator.kt:68-83 | the backtracking appends exactly the candidates of `Gen` to `validSubsets`, in order, and gives back `current` and `indices` as it found them |
| ScoreCalculator.FindExactCoverSubsets | app/src/main/java/com/emmeliejohansson/thirtydicegame/models/ScoreCalculator.kt:64-107 | the two phases compute `ExactCover`, whose meaning `ExactCoverIff` states |
| ScoreCalculator.CalculateCategoryScore | app/src/main/java/com/emmeliejohansson/thirtydicegame/models/ScoreCalculator.kt:44-54 | computes `CategoryScore`, whose meaning `NumericScoreIff` states |
| ScoreCalculator.CalculateScore | app/src/main/java/com/emmeliejohansson/thirtydicegame/models/ScoreCalculator.kt:17-26 | computes `Score`, whose meaning `LowScoreIff` and `NumericScoreIff` state |
| ScoreCalculatorProofs.GenSound | app/src/main/java/com/emmeliejohansson/thirtydicegame/models/ScoreCalculator.kt:68-83 | every candidate `generateSubsets` records holds dice indices in range, lists their faces in increasing index order with no index twice, and sums to the target |
| ScoreCalculatorProofs.GenFromSound | app/src/main/java/com/emmeliejohansson/thirtydicegame/models/ScoreCalculator.kt:75-82 | the same for the candidates recorded by the `for` loop from index `i` on |
| ScoreCalculatorProofs.GenComplete | app/src/main/java/com/emmeliejohansson/thirtydicegame/models/ScoreCalculator.kt:68-83 | with faces of at least 1, every index set that sums to the target and extends the current indices is recorded as a candidate |
| ScoreCalculatorProofs.GenFromComplete | app/src/main/java/com/emmeliejohansson/thirtydicegame/models/ScoreCalculator.kt:75-82 | the same for the loop from index `i` on, for a set with a member not yet taken |
| ScoreCalculatorProofs.SearchSound | app/src/main/java/com/emmeliejohansson/thirtydicegame/models/ScoreCalculator.kt:88-105 | `search` succeeds only with candidates from `remaining` that are pairwise disjoint, avoid the used indices, and complete them to every index. The result is the groups chosen before plus the faces of those candidates |
| ScoreCalculatorProofs.SearchFromSound | app/src/main/java/com/emmeliejohansson/thirtydicegame/models/ScoreCalculator.kt:96-104 | the same for the loop of `search` from its `k`-th candidate on |
| ScoreCalculatorProofs.SearchComplete | app/src/main/java/com/emmeliejohansson/thirtydicegame/models/ScoreCalculator.kt:88-105 | when non-empty, pairwise disjoint candidates in `remaining` complete the used indices to every index, `search` succeeds |
| ScoreCalculatorProofs.SearchFromComplete | app/src/main/java/com/emmeliejohansson/thirtydicegame/models/ScoreCalculator.kt:96-102 | the loop of `search` succeeds from any position at or before a member of such a cover |
| ScoreCalculatorProofs.ExactCoverSound | app/src/main/java/com/emmeliejohansson/thirtydicegame/models/ScoreCalculator.kt:64-107 | for a non-zero target, the groups found are the faces of an exact cover, read in index order; their flattened sum is the sum of all dice, the target times the number of groups |
| ScoreCalculatorProofs.ExactCoverComplete | app/src/main/java/com/emmeliejohansson/thirtydicegame/models/ScoreCalculator.kt:64-107 | with faces of at least 1, whenever an exact cover exists the search finds one |
| ScoreCalculatorProofs.ExactCoverIff | app/src/main/java/com/emmeliejohansson/thirtydicegame/models/ScoreCalculator.kt:64-107 | with faces of at least 1 and a non-zero target, the search finds a cover exactly when an exact cover exists |
| ScoreCalculatorProofs.EmptySelectionFails | app/src/main/java/com/emmeliejohansson/thirtydicegame/models/ScoreCalculator.kt:17-20 | an empty selection fails with `NoDiceSelected` in every category |
| ScoreCalculatorProofs.LowScoreIff | app/src/main/java/com/emmeliejohansson/thirtydicegame/models/ScoreCalculator.kt:17-37 | see the bullets after the table |
| ScoreCalculatorProofs.LowScoreBounds | app/src/main/java/com/emmeliejohansson/thirtydicegame/models/ScoreCalculator.kt:32-37 | with faces from 1 to 3, a `LOW` score lies between the number of dice and three times it |
| ScoreCalculatorProofs.NumericScoreSound | app/src/main/java/com/emmeliejohansson/thirtydicegame/models/ScoreCalculator.kt:44-53 | a numeric category succeeds only on a non-empty selection with an exact cover by at least one group summing to its number. The score is the sum of the dice, that number times the number of groups |
| ScoreCalculatorProofs.NumericScoreIff | app/src/main/java/com/emmeliejohansson/thirtydicegame/models/ScoreCalculator.kt:44-53 | see the bullets after the table |
| ScoreCalculatorProofs.SixExample | app/src/main/java/com/emmeliejohansson/thirtydicegame/models/ScoreCalculator.kt:48-53 | `SIX` on [1,2,3,6] scores 12 |
| ScoreCalculatorProofs.NineExample | app/src/main/java/com/emmeliejohansson/thirtydicegame/models/ScoreCalculator.kt:48-53 | `NINE` on [1,2,3,4] fails with no valid grouping for 9 |
| ScoreCalculatorProofs.LowExamples | app/src/main/java/com/emmeliejohansson/thirtydicegame/models/ScoreCalculator.kt:32-37 | `LOW` on [1,2,3] scores 6 and rejects [1,4] |
| DieModel.Die.constructor | app/src/main/java/com/emmeliejohansson/thirtydicegame/models/Die.kt:10-19 | a new die shows its identifier, is not selected and has not been rolled |
| DieModel.Die.Roll | app/src/main/java/com/emmeliejohansson/thirtydicegame/models/Die.kt:25-28 | `roll` gives a face from 1 to 6 and marks the die rolled, keeping its selection and the invariant "selected implies rolled" |
| DieModel.Die.ToggleIsSelected | app/src/main/java/com/emmeliejohansson/thirtydicegame/models/Die.kt:34-38 | `toggleIsSelected` flips the selection of a rolled die and leaves an unrolled one alone. The face and rolled flag stay, and the invariant is kept |
| DieModel.ToggleTwice | app/src/main/java/com/emmeliejohansson/thirtydicegame/models/Die.kt:34-38 | toggling twice gives the selection back; a toggle changes the selection exactly when the die has been rolled |
| DieModel.Die.Reset | app/src/main/java/com/emmeliejohansson/thirtydicegame/models/Die.kt:44-48 | `reset` puts the die back in its initial state |
| DieModel.Die.Deselect | app/src/main/java/com/emmeliejohansson/thirtydicegame/repository/DefaultDiceRepository.kt:38 | `deselect` (not defined in Die.kt) clears the selection only |
| DieModel.Die.RestoreState | app/src/main/java/com/emmeliejohansson/thirtydicegame/managers/GameManager.kt:137 | `restoreState` (not defined in Die.kt) writes the three saved fields |
| DieModel.SelectedDice | app/src/main/java/com/emmeliejohansson/thirtydicegame/repository/DefaultDiceRepository.kt:24 | `filter { it.isSelected }` keeps exactly the selected dice, adds none, and keeps a list of distinct dice distinct; `SelectedDiceOne` and `SelectedDiceConcat` fix it as the order-preserving filter |
| DieModel.SelectedDiceOne | app/src/main/java/com/emmeliejohansson/thirtydicegame/repository/DefaultDiceRepository.kt:24 | on one die the filter keeps it exactly when it is selected |
| DieModel.SelectedDiceConcat | app/src/main/java/com/emmeliejohansson/thirtydicegame/repository/DefaultDiceRepository.kt:24 | the filter distributes over concatenation, so selected dice keep their order and multiplicity |
| DieModel.AnySelected | app/src/main/java/com/emmeliejohansson/thirtydicegame/models/GameViewModel.kt:178 | `any { it.isSelected }` holds exactly when some die in the list is selected |
| DieModel.Faces | app/src/main/java/com/emmeliejohansson/thirtydicegame/managers/GameManager.kt:71 | `map { it.value }` lists the faces in die order |
| DieModel.FindById | app/src/main/java/com/emmeliejohansson/thirtydicegame/services/DiceStore.kt:12-14 | `find` returns the first die with that identifier, and nothing exactly when no die has it |
| DieModel.RollEach | app/src/main/java/com/emmeliejohansson/thirtydicegame/managers/GameManager.kt:43 | `forEach { it.roll() }` rolls every die of the list and keeps their selections |
| DieModel.ResetEach | app/src/main/java/com/emmeliejohansson/thirtydicegame/models/Round.kt:62 | `forEach { it.reset() }` leaves every die of the list in its initial state |
| DieModel.DeselectEach | app/src/main/java/com/emmeliejohansson/thirtydicegame/repository/DefaultDiceRepository.kt:37-39 | `forEach { it.deselect() }` clears every selection and keeps faces and rolled flags |
| RoundModel.Round.constructor | app/src/main/java/com/emmeliejohansson/thirtydicegame/models/Round.kt:14-30 | a new round has six distinct fresh dice with identifiers 1 to 6 in order, all initial, no roll, no category, not scored |
| RoundModel.Round.IncrementRollCount | app/src/main/java/com/emmeliejohansson/thirtydicegame/models/Round.kt:47-51 | adds one roll while fewer than `MAX_ROLLS` (3) have been made and is a no-op at the limit, so the count stays in 0..3 |
| RoundModel.Round.Reset | app/src/main/java/com/emmeliejohansson/thirtydicegame/models/Round.kt:58-63 | no rolls, no category, not scored, and every die reset |
| RoundModel.Round.RestoreRollCount | app/src/main/java/com/emmeliejohansson/thirtydicegame/managers/GameManager.kt:119-121 | `restoreRollCount` (not defined in Round.kt) sets the count, clamped to 0..3 |
| GameModel.Game.constructor | app/src/main/java/com/emmeliejohansson/thirtydicegame/models/Game.kt:14-17 | a new game has no completed round, no recorded score, and a fresh first round with no rolls, every die initial, no category and not scored |
| GameModel.Game.IncrementRollCount | app/src/main/java/com/emmeliejohansson/thirtydicegame/models/Game.kt:34-36 | delegates to the current round: one more roll below the limit, none at it; the round's chosen category and scored flag are kept |
| GameModel.Game.ResetRound | app/src/main/java/com/emmeliejohansson/thirtydicegame/models/Game.kt:42-45 | the current round joins the end of the history and a fresh round starts: no rolls, every die initial, no category, not scored. The recorded scores are kept. The round number rises by exactly one, and the game is over once ten rounds are complete |
| GameModel.Game.ScoreCategory | app/src/main/java/com/emmeliejohansson/thirtydicegame/managers/GameManager.kt:79 | `scoreCategory` (not defined in Game.kt) records the score and touches no round |
| GameModel.Game.SetCurrentRoundNumber | app/src/main/java/com/emmeliejohansson/thirtydicegame/managers/GameManager.kt:110-112 | `setCurrentRoundNumber` (not defined in Game.kt) leaves the round number, which is derived from the history |
| Managers.GameManager.constructor | app/src/main/java/com/emmeliejohansson/thirtydicegame/managers/GameManager.kt:15-18 | the manager drives the given game through the given repository |
| Managers.GameManager.CanRollMore | app/src/main/java/com/emmeliejohansson/thirtydicegame/managers/GameManager.kt:146-151 | `canRollMore` and `isRollLimitReached` are complements |
| Managers.GameManager.GetSelectedDice | app/src/main/java/com/emmeliejohansson/thirtydicegame/managers/GameManager.kt:156 | exactly the selected dice of the current round, as the order-preserving filter `SelectedDice` of its dice |
| Managers.GameManager.RollDice | app/src/main/java/com/emmeliejohansson/thirtydicegame/managers/GameManager.kt:39-49 | see the bullets after the table |
| Managers.GameManager.ToggleDieSelected | app/src/main/java/com/emmeliejohansson/thirtydicegame/managers/GameManager.kt:57-61 | toggles the die at an in-range index only; no other die changes |
| Managers.GameManager.CompleteRound | app/src/main/java/com/emmeliejohansson/thirtydicegame/managers/GameManager.kt:70-87 | see the bullets after the table |
| Managers.GameManager.ResetDice | app/src/main/java/com/emmeliejohansson/thirtydicegame/managers/GameManager.kt:93-95 | every die of the current round back in its initial state |
| Managers.GameManager.PrepareForNextRoll | app/src/main/java/com/emmeliejohansson/thirtydicegame/managers/GameManager.kt:101-103 | every die deselected, faces and rolled flags kept |
| Managers.GameManager.RestoreRoundNumber | app/src/main/java/com/emmeliejohansson/thirtydicegame/managers/GameManager.kt:110-112 | the round number is unchanged |
| Managers.GameManager.RestoreRollCount | app/src/main/java/com/emmeliejohansson/thirtydicegame/managers/GameManager.kt:119-121 | the current round's count becomes the given one, clamped to 0..3; the round's chosen category and scored flag are kept |
| Managers.GameManager.RestoreDice | app/src/main/java/com/emmeliejohansson/thirtydicegame/managers/GameManager.kt:128-141 | a die takes its saved state exactly when its index is within the saved list and the saved entry has an `Int` value and two `Boolean` flags; every other die is unchanged |
| Repository.DefaultDiceRepository.constructor | app/src/main/java/com/emmeliejohansson/thirtydicegame/repository/DefaultDiceRepository.kt:12-14 | the repository wraps the given game |
| Repository.DefaultDiceRepository.GetSelectedDice | app/src/main/java/com/emmeliejohansson/thirtydicegame/repository/DiceRepository.kt:18-23 | exactly the dice of the current round that are selected, as the order-preserving filter `SelectedDice` of its dice |
| Repository.DefaultDiceRepository.GetDieById | app/src/main/java/com/emmeliejohansson/thirtydicegame/repository/DefaultDiceRepository.kt:32 | a die of the current round whose initial value is `id`, and null exactly when none has it |
| Repository.DefaultDiceRepository.DeselectAllDice | app/src/main/java/com/emmeliejohansson/thirtydicegame/repository/DiceRepository.kt:33-37 | no die of the current round stays selected; faces and rolled flags are kept |
| Repository.DefaultDiceRepository.ResetDice | app/src/main/java/com/emmeliejohansson/thirtydicegame/repository/DiceRepository.kt:39-43 | every die of the current round is in its initial state |
| Services.DiceStore.constructor | app/src/main/java/com/emmeliejohansson/thirtydicegame/services/DiceStore.kt:7 | the store starts empty |
| Services.DiceStore.AddDie | app/src/main/java/com/emmeliejohansson/thirtydicegame/services/DiceStore.kt:8-10 | the die goes at the end; the dice before it stay as they were |
| Services.DiceStore.GetDieById | app/src/main/java/com/emmeliejohansson/thirtydicegame/services/DiceStore.kt:12-14 | the first stored die with that identifier (every die before it has another), and null exactly when none has it; the store may hold repeated identifiers |
| Services.DiceStore.GetAllDice | app/src/main/java/com/emmeliejohansson/thirtydicegame/services/DiceStore.kt:16 | a copy of the list: a value that later additions do not change |
| Services.DiceStore.GetSelectedDice | app/src/main/java/com/emmeliejohansson/thirtydicegame/services/DiceStore.kt:18-20 | exactly the stored dice that are selected, as the order-preserving filter `SelectedDice` of the list |
| Services.DiceStore.DeselectAllDice | app/src/main/java/com/emmeliejohansson/thirtydicegame/services/DiceStore.kt:22-24 | no stored die stays selected; faces and rolled flags are kept |
| UiState.ColorOf | app/src/main/java/com/emmeliejohansson/thirtydicegame/ui/state/GameUIState.kt:22-29 | see the bullets after the table |
| UiState.GetInstruction | app/src/main/java/com/emmeliejohansson/thirtydicegame/ui/state/GameUIState.kt:41-79 | see the bullets after the table |
| Lists.RemoveFirst | app/src/main/java/com/emmeliejohansson/thirtydicegame/models/GameViewModel.kt:145 | `MutableList.remove` drops the first occurrence and keeps the rest in order; a missing element changes nothing |
| Lists.RemoveFirstMembers | app/src/main/java/com/emmeliejohansson/thirtydicegame/models/GameViewModel.kt:145 | removing one occurrence shortens the list by one, keeps every other element and adds none |
| Lists.Without | app/src/main/java/com/emmeliejohansson/thirtydicegame/ThirtyDiceGameViewModel.kt:36 | `filter { it != category }` keeps exactly the other elements |
| Lists.WithoutConcat | app/src/main/java/com/emmeliejohansson/thirtydicegame/ThirtyDiceGameViewModel.kt:36 | the filter distributes over concatenation, so the survivors keep their order |
| Ledger.TotalScore | app/src/main/java/com/emmeliejohansson/thirtydicegame/models/GameViewModel.kt:122 | `values.sum()` is the sum of the recorded scores, whatever order the keys are visited in |
| Ledger.RegisterTotal | app/src/main/java/com/emmeliejohansson/thirtydicegame/models/GameViewModel.kt:142-148 | first write wins: registering a scored category again changes nothing. The total grows by the score exactly when the category was not scored yet. Both removal variants behave this way |
| Ledger.RemoveFirstNoDuplicates | app/src/main/java/com/emmeliejohansson/thirtydicegame/models/GameViewModel.kt:145 | in an open list without duplicates, `remove` takes the category out entirely and leaves no duplicates |
| Ledger.RegisterKeepsAccounts | app/src/main/java/com/emmeliejohansson/thirtydicegame/models/GameViewModel.kt:142-148 | `registerScore` keeps every category open or scored, never both, and the open list free of duplicates |
| Ledger.RegisterFilteredKeepsScoredOut | app/src/main/java/com/emmeliejohansson/thirtydicegame/ThirtyDiceGameViewModel.kt:27-37 | the string-keyed `registerScore` and `removeCategory` keep scored labels out of the open list |
| ModelsViewModel.ExportScores | app/src/main/java/com/emmeliejohansson/thirtydicegame/models/GameViewModel.kt:151-153 | every score appears under its category's name, and every key names a scored category |
| ModelsViewModel.ImportScores | app/src/main/java/com/emmeliejohansson/thirtydicegame/models/GameViewModel.kt:201-205 | a category gets a score exactly when its name is a saved key, and it gets that key's score |
| ModelsViewModel.ExportImport | app/src/main/java/com/emmeliejohansson/thirtydicegame/models/GameViewModel.kt:183-205 | exported scores have valid names, and importing them gives the same sheet |
| ModelsViewModel.ImportExport | app/src/main/java/com/emmeliejohansson/thirtydicegame/models/GameViewModel.kt:201-205 | saved scores under valid names, imported and exported again, give the same map |
| ModelsViewModel.SaveNames | app/src/main/java/com/emmeliejohansson/thirtydicegame/models/GameViewModel.kt:184 | the open categories saved by name, in order |
| ModelsViewModel.RestoreNames | app/src/main/java/com/emmeliejohansson/thirtydicegame/models/GameViewModel.kt:207-210 | each restored category carries the saved name at its position |
| ModelsViewModel.NamesRoundTrip | app/src/main/java/com/emmeliejohansson/thirtydicegame/models/GameViewModel.kt:184-210 | saving the open list by name and restoring it gives the same list, and the other way round for valid names |
| ModelsViewModel.SavedDieOf | app/src/main/java/com/emmeliejohansson/thirtydicegame/models/GameViewModel.kt:187-193 | a saved die is well typed and holds the fields it was made from |
| ModelsViewModel.SavedDice | app/src/main/java/com/emmeliejohansson/thirtydicegame/models/GameViewModel.kt:187-193 | one well-typed saved die per die, in order, with that die's fields |
| ModelsViewModel.Clamp | app/src/main/java/com/emmeliejohansson/thirtydicegame/models/GameViewModel.kt:214-215 | the restored roll count is in 0..3 and equals the requested one when that is in range |
| ModelsViewModel.SaveRestoreRoundTrip | app/src/main/java/com/emmeliejohansson/thirtydicegame/models/GameViewModel.kt:182-229 | what `saveGameState` writes can be restored without a throwing `valueOf`, and restores the same sheet, the same open list in order, the same roll count (via `rollsLeft = 3 - rollCount`) and the same button flag |
| ModelsViewModel.InitialSheet | app/src/main/java/com/emmeliejohansson/thirtydicegame/models/GameViewModel.kt:38-39 | the starting sheet has every category open exactly once and none scored |
| ModelsViewModel.ImportInto | app/src/main/java/com/emmeliejohansson/thirtydicegame/models/GameViewModel.kt:202-205 | the `forEach` over saved scores writes each one under its category, giving the sheet plus the imported scores |
| ModelsViewModel.GameViewModel.RollsLeft | app/src/main/java/com/emmeliejohansson/thirtydicegame/models/GameViewModel.kt:34 | `rollsLeft` is in 0..3 and is 0 exactly when all three rolls are made |
| ModelsViewModel.GameViewModel.constructor | app/src/main/java/com/emmeliejohansson/thirtydicegame/models/GameViewModel.kt:44-46 | a new view model is on round 1 with no category chosen. It holds the restored sheet, open list, roll count, dice and button flag (the defaults when nothing was saved), and its selection flag follows the dice |
| ModelsViewModel.GameViewModel.RollDice | app/src/main/java/com/emmeliejohansson/thirtydicegame/models/GameViewModel.kt:49-53 | see the bullets after the table |
| ModelsViewModel.GameViewModel.RollRound | app/src/main/java/com/emmeliejohansson/thirtydicegame/models/GameViewModel.kt:50 | the manager's roll seen through the view model: the same roll rules as `Managers.GameManager.RollDice`, including the round unchanged at the limit and its chosen category and scored flag always kept |
| ModelsViewModel.GameViewModel.PrepareForNextRoll | app/src/main/java/com/emmeliejohansson/thirtydicegame/models/GameViewModel.kt:56-60 | every die deselected, faces kept, no die selected, the state saved; sheet, chosen category and the two button flags kept |
| ModelsViewModel.GameViewModel.ToggleDieSelected | app/src/main/java/com/emmeliejohansson/thirtydicegame/models/GameViewModel.kt:63-68 | before the first roll nothing changes. Afterwards only the die at the index is toggled, keeping its face and rolled flag, and the selection flag follows the dice. Sheet, saved state, chosen category and the two button flags are kept |
| ModelsViewModel.GameViewModel.GetInstruction | app/src/main/java/com/emmeliejohansson/thirtydicegame/models/GameViewModel.kt:71-79 | start before the first roll; scoring in the chosen category's label once one is chosen; round over when no roll is left |
| ModelsViewModel.GameViewModel.GetDieColor | app/src/main/java/com/emmeliejohansson/thirtydicegame/models/GameViewModel.kt:82-84 | red exactly for a rolled selected die; white exactly for a rolled unselected die while rolls remain |
| ModelsViewModel.GameViewModel.CompleteRound | app/src/main/java/com/emmeliejohansson/thirtydicegame/models/GameViewModel.kt:92-99 | see the bullets after the table |
| ModelsViewModel.GameViewModel.HandleScoreResult | app/src/main/java/com/emmeliejohansson/thirtydicegame/models/GameViewModel.kt:158-174 | a success registers the score, saves, and reports whether the game is over; a failure is passed on and leaves sheet and saved state. Both keep the chosen category and the three flags |
| ModelsViewModel.GameViewModel.IsRollButtonEnabled | app/src/main/java/com/emmeliejohansson/thirtydicegame/models/GameViewModel.kt:102-104 | enabled only while rolls remain; always before the first roll; never after it with no die selected |
| ModelsViewModel.GameViewModel.SelectCategory | app/src/main/java/com/emmeliejohansson/thirtydicegame/models/GameViewModel.kt:107-109 | the category is chosen; sheet, saved state and the three flags are unchanged |
| ModelsViewModel.GameViewModel.ClearSelectedCategory | app/src/main/java/com/emmeliejohansson/thirtydicegame/models/GameViewModel.kt:112-114 | no category is chosen; nothing else changes |
| ModelsViewModel.GameViewModel.SetScoreButtonsEnabled | app/src/main/java/com/emmeliejohansson/thirtydicegame/models/GameViewModel.kt:117-119 | the button flag takes the given value; nothing else changes |
| ModelsViewModel.GameViewModel.GetTotalScore | app/src/main/java/com/emmeliejohansson/thirtydicegame/models/GameViewModel.kt:122 | the sum of the recorded scores |
| ModelsViewModel.GameViewModel.PrepareRoundForUI | app/src/main/java/com/emmeliejohansson/thirtydicegame/models/GameViewModel.kt:129-131 | same as `resetRound` |
| ModelsViewModel.GameViewModel.ResetRound | app/src/main/java/com/emmeliejohansson/thirtydicegame/models/GameViewModel.kt:134-139 | no category, every die initial, next-round button off, buttons disabled unless the state was restored, sheet, selection flag and restored flag kept, and the state saved |
| ModelsViewModel.GameViewModel.RegisterScore | app/src/main/java/com/emmeliejohansson/thirtydicegame/models/GameViewModel.kt:142-148 | the first-write-wins `Register` of the ledger. It saves only when the category was new; the chosen category and the three flags are kept |
| ModelsViewModel.GameViewModel.GetExportableScores | app/src/main/java/com/emmeliejohansson/thirtydicegame/models/GameViewModel.kt:151-153 | the exported map has valid names and imports back to the sheet |
| ModelsViewModel.GameViewModel.UpdateDiceSelectionState | app/src/main/java/com/emmeliejohansson/thirtydicegame/models/GameViewModel.kt:177-179 | the selection flag holds exactly when some die is selected |
| ModelsViewModel.GameViewModel.SaveGameState | app/src/main/java/com/emmeliejohansson/thirtydicegame/models/GameViewModel.kt:182-195 | the saved state becomes the snapshot of the sheet, rolls left, round number, dice and button flag; nothing else changes |
| ModelsViewModel.GameViewModel.RestoreScores | app/src/main/java/com/emmeliejohansson/thirtydicegame/models/GameViewModel.kt:201-205 | the sheet gains the imported saved scores, overwriting those it had |
| ModelsViewModel.GameViewModel.RestoreSheet | app/src/main/java/com/emmeliejohansson/thirtydicegame/models/GameViewModel.kt:201-210 | saved scores are added to the sheet, and a saved open list replaces the current one; saved state, chosen category and the three flags are kept |
| ModelsViewModel.GameViewModel.RestoreRound | app/src/main/java/com/emmeliejohansson/thirtydicegame/models/GameViewModel.kt:212-226 | saved rolls left set the roll count to `3 - rollsLeft`, clamped. The round number is unchanged. Saved dice are written back where well typed. The round's chosen category and scored flag are kept |
| ModelsViewModel.GameViewModel.RestoreGameState | app/src/main/java/com/emmeliejohansson/thirtydicegame/models/GameViewModel.kt:200-234 | all of `RestoreSheet` and `RestoreRound`; the button flag is the saved one or false; the selection flag follows the dice; the round's chosen category and scored flag are kept |
| AppViewModel.FindByPosition | app/src/main/java/com/emmeliejohansson/thirtydicegame/GameViewModel.kt:65 | in a round the die with identifier `index + 1` is the one at `index`, and other indices find no die |
| AppViewModel.GameViewModel.constructor | app/src/main/java/com/emmeliejohansson/thirtydicegame/GameViewModel.kt:13-40 | a new game with no roll, nothing selected, every category open and none scored |
| AppViewModel.GameViewModel.IsEndOfRound | app/src/main/java/com/emmeliejohansson/thirtydicegame/GameViewModel.kt:44 | the round is over exactly when the roll count has reached the round's limit |
| AppViewModel.GameViewModel.SetScoreButtonsEnabled | app/src/main/java/com/emmeliejohansson/thirtydicegame/GameViewModel.kt:46-48 | the button flag takes the given value; nothing else changes |
| AppViewModel.GameViewModel.RollDice | app/src/main/java/com/emmeliejohansson/thirtydicegame/GameViewModel.kt:50-62 | see the bullets after the table |
| AppViewModel.GameViewModel.RollTurnDice | app/src/main/java/com/emmeliejohansson/thirtydicegame/GameViewModel.kt:53-57 | every die on the first roll, only the selected ones later; the others keep face and rolled flag |
| AppViewModel.GameViewModel.ToggleDieSelected | app/src/main/java/com/emmeliejohansson/thirtydicegame/GameViewModel.kt:64-67 | the die with identifier `index + 1`, which is the one at `index`, is toggled, keeping its face and rolled flag; no other die changes; the selection flag follows the dice; sheet, chosen category and button flag are kept |
| AppViewModel.GameViewModel.UpdateDiceSelectionState | app/src/main/java/com/emmeliejohansson/thirtydicegame/GameViewModel.kt:69-71 | the selection flag holds exactly when some die is selected |
| AppViewModel.GameViewModel.SelectCategory | app/src/main/java/com/emmeliejohansson/thirtydicegame/GameViewModel.kt:73-75 | the category is chosen; sheet, selection flag and button flag are unchanged |
| AppViewModel.GameViewModel.ClearSelectedCategory | app/src/main/java/com/emmeliejohansson/thirtydicegame/GameViewModel.kt:77-79 | no category is chosen; sheet, selection flag and button flag are unchanged |
| AppViewModel.GameViewModel.RegisterScore | app/src/main/java/com/emmeliejohansson/thirtydicegame/GameViewModel.kt:81-86 | the first-write-wins `Register` of the ledger; chosen category, selection flag and button flag are kept |
| AppViewModel.GameViewModel.ResetForNextRound | app/src/main/java/com/emmeliejohansson/thirtydicegame/GameViewModel.kt:88-93 | the round joins the history and the round number rises by one; the new round has no roll, every die initial, no category and is not scored; the game's recorded scores are kept; no category is chosen; sheet, selection flag and button flag are kept |
| AppViewModel.GameViewModel.CalculateScoreForCategory | app/src/main/java/com/emmeliejohansson/thirtydicegame/GameViewModel.kt:95-97 | the calculator's `Score` |
| AppViewModel.GameViewModel.GetSelectedDice | app/src/main/java/com/emmeliejohansson/thirtydicegame/GameViewModel.kt:99 | exactly the selected dice of the current round, as the order-preserving filter `SelectedDice` of its dice |
| AppViewModel.GameViewModel.GetTotalScore | app/src/main/java/com/emmeliejohansson/thirtydicegame/GameViewModel.kt:101 | the sum of the recorded scores |
| ThirtyDiceViewModel.InitialLabelsAreCategoryLabels | app/src/main/java/com/emmeliejohansson/thirtydicegame/ThirtyDiceGameViewModel.kt:21-23 | the starting open list is the labels of the ten categories in declaration order |
| ThirtyDiceViewModel.InitialLabelsDistinct | app/src/main/java/com/emmeliejohansson/thirtydicegame/ThirtyDiceGameViewModel.kt:21-23 | no label starts out twice in the open list |
| ThirtyDiceViewModel.ThirtyDiceGameViewModel.constructor | app/src/main/java/com/emmeliejohansson/thirtydicegame/ThirtyDiceGameViewModel.kt:17-23 | no score recorded; every starting label is open and none scored |
| ThirtyDiceViewModel.ThirtyDiceGameViewModel.RegisterScore | app/src/main/java/com/emmeliejohansson/thirtydicegame/ThirtyDiceGameViewModel.kt:27-32 | an unscored label gets its score and every occurrence leaves the open list; a scored label changes nothing; scored labels stay out of the open list |
| ThirtyDiceViewModel.ThirtyDiceGameViewModel.RemoveCategory | app/src/main/java/com/emmeliejohansson/thirtydicegame/ThirtyDiceGameViewModel.kt:35-37 | every occurrence of the label leaves the open list, the others in order; scores unchanged |
| ThirtyDiceViewModel.ThirtyDiceGameViewModel.UseCategory | app/src/main/java/com/emmeliejohansson/thirtydicegame/ThirtyDiceGameViewModel.kt:56-59 | the label leaves the open list and no score is recorded |
| ThirtyDiceViewModel.ThirtyDiceGameViewModel.GetTotalScore | app/src/main/java/com/emmeliejohansson/thirtydicegame/ThirtyDiceGameViewModel.kt:68 | the sum of the recorded scores |

The rows marked "see the bullets after the table" state the following:

- **ScoreCalculatorProofs.LowScoreIff**:
  - An empty selection fails with `NoDiceSelected` (for every category, `EmptySelectionFails`).
  - `LOW` accepts a non-empty selection exactly when no face is above 3, and then scores the sum.
  - A rejection reports `InvalidForLow`.
- **ScoreCalculatorProofs.NumericScoreIff**, with faces of at least 1 and a non-empty selection:
  - A numeric category succeeds exactly when an exact cover by groups summing to its number exists.
  - A success scores the sum of the dice.
  - A failure reports no valid grouping for that number.
- **Managers.GameManager.RollDice**:
  - At the limit, nothing changes: the round and every die are unchanged.
  - The round's chosen category and scored flag are always kept.
  - The first roll rolls all dice.
  - A later roll rerolls only the selected dice; the unselected ones keep face and rolled flag.
  - Selections are kept, and the count rises by exactly one.
- **Managers.GameManager.CompleteRound**:
  - The result is the calculator's score of the selected faces.
  - An empty selection or a rejected score leaves the game unchanged.
  - A success records the score, archives the round and starts a fresh one: no rolls, every die initial, no category, not scored.
- **UiState.ColorOf**:
  - An unrolled die is gray.
  - A rolled, selected die is red, even with no rolls left.
  - A rolled, unselected die is gray with no rolls left and white otherwise.
  - Each colour is stated in both directions.
- **UiState.GetInstruction**:
  - "Start" exactly when no roll has been made, even with a category chosen.
  - Otherwise a chosen category wins over "round over", and its label falls back to "?".
  - Otherwise "round over" at the limit, and "select dice or score" before it.
  - Each case is stated in both directions.
- **ModelsViewModel.GameViewModel.RollDice**:
  - The manager's roll rules apply: the count rises by one below the limit. At the limit the round and every die are unchanged.
  - The round's chosen category and scored flag are always kept.
  - On the first roll every die is rolled. On a later roll the selected dice are rerolled and the others keep their face.
  - The selection flag follows the dice, and the state is saved.
  - The sheet, the chosen category and the two button flags are kept.
- **ModelsViewModel.GameViewModel.CompleteRound**:
  - It succeeds exactly when the calculator accepts the selected faces.
  - A failure returns the calculator's error and changes neither sheet nor game: history, current round and recorded game scores are kept.
  - A success registers the score first-write-wins, records it in the game, archives the round, starts a fresh round (no rolls, dice initial, no category, not scored), saves, and returns whether the game is over.
  - A failure also leaves the saved state; both outcomes keep the chosen category and the three flags.
- **AppViewModel.GameViewModel.RollDice**:
  - At the limit, nothing changes: the round and every die are unchanged.
  - The round's chosen category and scored flag are always kept.
  - Otherwise the first roll rolls every die and a later one only the selected dice, the others keeping face and rolled flag.
  - Then every die is deselected, the count rises by one, and no die is selected.
  - The sheet, the chosen category and the button flag are kept.

## Left out

- Randomness: the face `Die.roll` draws is an arbitrary choice in 1..6, not a distribution.
- ScoreOptions.ParseInt: accepts only the ASCII digits `0`-`9`. Kotlin's `toIntOrNull` also accepts other Unicode decimal digits, which no category label contains.
- Integer width: sums and totals use unbounded integers. Kotlin's 32-bit `Int` cannot overflow on at most six dice per round and ten scores per game. `toIntOrNull` does check the 32-bit range.
- Android: `SavedStateHandle` is modelled as a record field of the view model. `LiveData` is modelled as a plain sequence. The localised instruction text (`Context.getString`) is modelled as the `Instruction` enum. The success and failure callbacks of `completeRound` are modelled as its `Result`. The exception messages are modelled as `ScoreError` cases.
- Screens and button glue: the activities, `ScoreCategoryManager`, `CategoryManager`, `DieImageMapper` and `ScoreTableBuilder` are not part of this model.
- Stubs: several members are called but not defined in the source files. They are given only their obvious field updates:
  - `Die.deselect`, `Die.restoreState` and `Die.initialValue` (the identifier);
  - `Round.restoreRollCount` (clamped to 0..3) and `Round.maxRolls` (`MAX_ROLLS`);
  - `Game.scoreCategory` (a map of recorded scores), `Game.setCurrentRoundNumber` (no effect) and `Game.isFirstRoll`.
- ModelsViewModel.GameViewModel.RestoreRound: the saved round number is not put back. `setCurrentRoundNumber` is not defined in the source, and the round number here is derived from the completed rounds.
- ModelsViewModel.GameViewModel.constructor: requires every saved score key and open-category name to be a constant name (`Restorable`). On any other name the source's `ScoreOption.valueOf` throws and no view model exists.
- ModelsViewModel.ImportInto: the loop visits the saved keys in an unspecified order and writes into a copy of the sheet that is then assigned, not into the map in place. The keys name distinct categories, so the order does not matter.
- ScoreCalculatorProofs.ExactCoverComplete: proved only for faces of at least 1, as real dice have. With a face of 0, the pruning in `generateSubsets` (stop once the sum reaches the target) misses the extensions that add zeros.
- ScoreCalculatorProofs.ExactCoverSound: stated for a non-zero target. Every numeric category's target lies in 4..12.
- DiceRepository: the interface has a single implementation, so its contract is stated on `DefaultDiceRepository`. No separate interface type is modelled.
- DiceStore: the companion object's single shared list is modelled as the list field of one `DiceStore` object.
- ThirtyDiceGameViewModel:
  - `rollDice`, `resetForNextRound`, `isGameOver`, `isEndOfRound` and the `useScoringCategory` call inside `useCategory` all delegate to `Game` methods that Game.kt does not define, so they are left out.
  - `getDice` and `getSelectedDice` read the shared `DiceStore`, whose operations are modelled in `Services.DiceStore`.
  - `fillDiceStore` is not defined in the source and is left out.
- `isGameOver`, `canRoll`, `getCurrentRoundNumber`, `isNextRoundButtonEnabled` and the other one-line getters are functions whose bodies are their definitions. Their properties appear in the contracts of the methods above, such as `Game.ResetRound` and `Round.IncrementRollCount`.
