/** The older shared dice list (services/DiceStore.kt). The program keeps one list in a
    companion object; here the store is an object whose list the methods replace. */
module Services {
  import opened Wrappers
  import opened DieModel

  class DiceStore {
    var diceList: seq<Die>

    constructor ()
      ensures diceList == []
    {
      diceList := [];
    }

    /** `addDie`: the die goes at the end; the dice before it stay as they were. */
    method AddDie(die: Die)
      modifies this
      ensures diceList == old(diceList) + [die]
      ensures diceList[..|old(diceList)|] == old(diceList)
    {
      diceList := diceList + [die];
    }

    /** `getDieById`: the first stored die with identifier `id`, or none. */
    function GetDieById(id: int): (r: Option<Die>)
      reads this
      ensures r.Some? ==> r.value in diceList && r.value.id == id
      ensures r.Some? ==>
        exists k :: 0 <= k < |diceList| && diceList[k] == r.value && forall j :: 0 <= j < k ==> diceList[j].id != id
      ensures r.None? <==> forall d :: d in diceList ==> d.id != id
    {
      FindById(diceList, id)
    }

    /** `getAllDice`: a copy of the list. A sequence is a value, so adding a die later does
        not change a list already handed out. */
    method GetAllDice() returns (r: seq<Die>)
      ensures r == diceList
    {
      r := diceList;
    }

    /** `getSelectedDice`: the stored dice that are selected, in order. */
    function GetSelectedDice(): (r: seq<Die>)
      reads this, diceList
      ensures forall d :: d in r ==> d in diceList && d.isSelected
      ensures forall d :: d in diceList && d.isSelected ==> d in r
      ensures r == SelectedDice(diceList)
    {
      SelectedDice(diceList)
    }

    /** `deselectAllDice`: no stored die stays selected; faces and rolled flags are kept.
        A die stored twice is simply cleared twice. */
    method DeselectAllDice()
      modifies set d | d in diceList
      ensures forall d :: d in diceList ==> !d.isSelected
      ensures forall d :: d in diceList ==> d.value == old(d.value) && d.hasBeenRolled == old(d.hasBeenRolled)
    {
      for i := 0 to |diceList|
        invariant forall j :: 0 <= j < i ==> !diceList[j].isSelected
        invariant forall d :: d in diceList ==> d.value == old(d.value) && d.hasBeenRolled == old(d.hasBeenRolled)
      {
        diceList[i].isSelected := false;
      }
    }
  }
}
