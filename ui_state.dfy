/** What the screen shows for the state of play (ui/state/GameUIState.kt, with the colours
    of models/DieColor.kt): the colour of a die and which instruction to display. The
    instruction texts themselves are Android string resources; here they are the cases
    of `Instruction`. */
module UiState {
  import opened Wrappers
  import opened ScoreOptions
  import opened DieModel

  /** `DieColor`. */
  datatype DieColor = Red | Gray | White

  /** Which instruction text `getInstructionText` picks; `ScoringIn` carries the label it
      fills in. */
  datatype Instruction = Start | ScoringIn(categoryLabel: string) | RoundOver | SelectDiceOrScore

  /** The `when` of `getDieColor`, on the die's two flags: an unrolled die is gray; a
      selected one red, even when no rolls remain; an unselected one gray once no rolls
      remain and white before. */
  function ColorOf(hasBeenRolled: bool, isSelected: bool, hasNoMoreRolls: bool): (c: DieColor)
    ensures c == Red <==> hasBeenRolled && isSelected
    ensures c == White <==> hasBeenRolled && !isSelected && !hasNoMoreRolls
    ensures c == Gray <==> !hasBeenRolled || (!isSelected && hasNoMoreRolls)
  {
    if !hasBeenRolled then Gray
    else if isSelected then Red
    else if hasNoMoreRolls then Gray
    else White
  }

  /** `getDieColor`. */
  function GetDieColor(die: Die, hasNoMoreRolls: bool): DieColor
    reads die
  {
    ColorOf(die.hasBeenRolled, die.isSelected, hasNoMoreRolls)
  }

  /** The `when` of `getInstructionText`: "start" before the first roll, whatever else
      holds; then a chosen category, labelled "?" when it is missing; then "round over"
      at the roll limit; otherwise "select dice or score". */
  function GetInstruction(rollCount: int, isScoreCategoryChosen: bool, selectedCategory: Option<ScoreOption>, maxRolls: int): (r: Instruction)
    ensures r == Start <==> rollCount == 0
    ensures r.ScoringIn? <==> rollCount != 0 && isScoreCategoryChosen
    ensures r.ScoringIn? ==> r.categoryLabel == (if selectedCategory.Some? then Label(selectedCategory.value) else "?")
    ensures r == RoundOver <==> rollCount != 0 && !isScoreCategoryChosen && rollCount >= maxRolls
    ensures r == SelectDiceOrScore <==> rollCount != 0 && !isScoreCategoryChosen && rollCount < maxRolls
  {
    if rollCount == 0 then Start
    else if isScoreCategoryChosen then ScoringIn(if selectedCategory.Some? then Label(selectedCategory.value) else "?")
    else if rollCount >= maxRolls then RoundOver
    else SelectDiceOrScore
  }
}
