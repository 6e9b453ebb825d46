/** One die (models/Die.kt) and the queries and `forEach` updates that the rest of the
    program runs over lists of dice. */
module DieModel {
  import opened Wrappers

  /** A die: its identifier, which is also its face before the first roll, the face
      shown, and whether the player has selected it and whether it has been rolled. */
  class Die {
    const id: int
    var value: int
    var isSelected: bool
    var hasBeenRolled: bool

    /** Only a rolled die can be selected. */
    ghost predicate Valid()
      reads this
    {
      isSelected ==> hasBeenRolled
    }

    /** A die as the rest of the program creates it, and as `reset` leaves it. */
    ghost predicate Initial()
      reads this
    {
      value == id && !isSelected && !hasBeenRolled
    }

    constructor (id: int)
      ensures this.id == id && Initial() && Valid()
    {
      this.id := id;
      value := id;
      isSelected := false;
      hasBeenRolled := false;
    }

    /** `initialValue`, which Die.kt does not define: the identifier the die was made with. */
    function InitialValue(): int
    {
      id
    }

    /** `roll`: a face from 1 to 6, chosen by the random source, which the model leaves
        open; the die counts as rolled and its selection stays as it was. */
    method Roll()
      modifies this
      ensures 1 <= value <= 6 && hasBeenRolled
      ensures isSelected == old(isSelected)
      ensures Valid()
    {
      var face :| 1 <= face <= 6;
      value := face;
      hasBeenRolled := true;
    }

    /** `toggleIsSelected`: flips the selection of a rolled die, leaves an unrolled one alone. */
    method ToggleIsSelected()
      modifies this
      ensures isSelected == Toggled(old(isSelected), old(hasBeenRolled))
      ensures value == old(value) && hasBeenRolled == old(hasBeenRolled)
      ensures old(Valid()) ==> Valid()
    {
      if hasBeenRolled {
        isSelected := !isSelected;
      }
    }

    /** `reset`: back to the state the die was made in. */
    method Reset()
      modifies this
      ensures Initial() && Valid()
    {
      value := id;
      isSelected := false;
      hasBeenRolled := false;
    }

    /** `deselect`, which Die.kt does not define: clears the selection only. */
    method Deselect()
      modifies this
      ensures !isSelected && value == old(value) && hasBeenRolled == old(hasBeenRolled)
      ensures Valid()
    {
      isSelected := false;
    }

    /** `restoreState`, which Die.kt does not define: writes the three saved fields. */
    method RestoreState(value: int, isSelected: bool, hasBeenRolled: bool)
      modifies this
      ensures this.value == value && this.isSelected == isSelected && this.hasBeenRolled == hasBeenRolled
    {
      this.value := value;
      this.isSelected := isSelected;
      this.hasBeenRolled := hasBeenRolled;
    }
  }

  /** The selection after `toggleIsSelected`, given the selection and rolled flag before. */
  function Toggled(isSelected: bool, hasBeenRolled: bool): bool
  {
    if hasBeenRolled then !isSelected else isSelected
  }

  /** Toggling twice gives back the selection a die had, and a toggle never selects an
      unrolled die. */
  lemma {:induction false} ToggleTwice(isSelected: bool, hasBeenRolled: bool)
    ensures Toggled(Toggled(isSelected, hasBeenRolled), hasBeenRolled) == isSelected
    ensures Toggled(isSelected, hasBeenRolled) != isSelected <==> hasBeenRolled
  {
  }

  // ---------------------------------------------------------------------------
  // Lists of dice
  // ---------------------------------------------------------------------------

  /** No die appears twice. */
  ghost predicate Distinct(ds: seq<Die>)
  {
    forall i, j :: 0 <= i < j < |ds| ==> ds[i] != ds[j]
  }

  /** `filter { it.isSelected }`: the selected dice, in list order. */
  function SelectedDice(ds: seq<Die>): (r: seq<Die>)
    reads ds
    ensures forall d :: d in r ==> d in ds && d.isSelected
    ensures forall d :: d in ds && d.isSelected ==> d in r
    ensures |r| <= |ds|
    ensures Distinct(ds) ==> Distinct(r)
  {
    if ds == [] then []
    else
      var rest := SelectedDice(ds[1..]);
      assert forall d :: d in ds[1..] ==> d in ds;
      if ds[0].isSelected then [ds[0]] + rest else rest
  }

  /** On one die the filter keeps it exactly when it is selected. */
  lemma {:induction false} SelectedDiceOne(d: Die)
    ensures SelectedDice([d]) == if d.isSelected then [d] else []
  {
    assert [d][1..] == [];
  }

  /** The filter distributes over concatenation: it keeps the selected dice in their
      order and with their multiplicity, and together with `SelectedDiceOne` fixes it. */
  lemma {:induction false} SelectedDiceConcat(a: seq<Die>, b: seq<Die>)
    ensures SelectedDice(a + b) == SelectedDice(a) + SelectedDice(b)
  {
    if a == [] {
      assert a + b == b;
    } else {
      assert (a + b)[1..] == a[1..] + b;
      SelectedDiceConcat(a[1..], b);
    }
  }

  /** `any { it.isSelected }`. */
  function AnySelected(ds: seq<Die>): (r: bool)
    reads ds
    ensures r <==> exists d :: d in ds && d.isSelected
  {
    if ds == [] then false
    else
      assert forall d :: d in ds ==> d == ds[0] || d in ds[1..];
      ds[0].isSelected || AnySelected(ds[1..])
  }

  /** `map { it.value }`: the faces, in list order. */
  function Faces(ds: seq<Die>): (r: seq<int>)
    reads ds
    ensures |r| == |ds| && forall i :: 0 <= i < |ds| ==> r[i] == ds[i].value
  {
    if ds == [] then [] else [ds[0].value] + Faces(ds[1..])
  }

  /** `find { it.id == id }`: the first die with that identifier, if any. */
  function FindById(ds: seq<Die>, id: int): (r: Option<Die>)
    ensures r.Some? ==> r.value.id == id
    ensures r.Some? ==> exists k :: 0 <= k < |ds| && ds[k] == r.value && forall j :: 0 <= j < k ==> ds[j].id != id
    ensures r.None? <==> forall d :: d in ds ==> d.id != id
  {
    if ds == [] then None
    else if ds[0].id == id then Some(ds[0])
    else
      var r := FindById(ds[1..], id);
      assert forall d :: d in ds ==> d == ds[0] || d in ds[1..];
      if r.Some? then
        ghost var k :| 0 <= k < |ds[1..]| && ds[1..][k] == r.value && forall j :: 0 <= j < k ==> ds[1..][j].id != id;
        assert ds[k + 1] == r.value && forall j :: 0 <= j < k + 1 ==> ds[j].id != id;
        r
      else r
  }

  /** `forEach { it.roll() }`. */
  method RollEach(ds: seq<Die>)
    requires Distinct(ds)
    modifies ds
    ensures forall i :: 0 <= i < |ds| ==> 1 <= ds[i].value <= 6 && ds[i].hasBeenRolled && ds[i].Valid()
    ensures forall i :: 0 <= i < |ds| ==> ds[i].isSelected == old(ds[i].isSelected)
  {
    for i := 0 to |ds|
      invariant forall j :: 0 <= j < i ==> 1 <= ds[j].value <= 6 && ds[j].hasBeenRolled && ds[j].Valid()
      invariant forall j :: 0 <= j < |ds| ==> ds[j].isSelected == old(ds[j].isSelected)
    {
      ds[i].Roll();
    }
  }

  /** `forEach { it.reset() }`. */
  method ResetEach(ds: seq<Die>)
    requires Distinct(ds)
    modifies ds
    ensures forall i :: 0 <= i < |ds| ==> ds[i].Initial() && ds[i].Valid()
  {
    for i := 0 to |ds|
      invariant forall j :: 0 <= j < i ==> ds[j].Initial() && ds[j].Valid()
    {
      ds[i].Reset();
    }
  }

  /** `forEach { it.deselect() }`. */
  method DeselectEach(ds: seq<Die>)
    requires Distinct(ds)
    modifies ds
    ensures forall i :: 0 <= i < |ds| ==> !ds[i].isSelected && ds[i].Valid()
    ensures forall i :: 0 <= i < |ds| ==> ds[i].value == old(ds[i].value) && ds[i].hasBeenRolled == old(ds[i].hasBeenRolled)
  {
    for i := 0 to |ds|
      invariant forall j :: 0 <= j < i ==> !ds[j].isSelected && ds[j].Valid()
      invariant forall j :: 0 <= j < |ds| ==> ds[j].value == old(ds[j].value) && ds[j].hasBeenRolled == old(ds[j].hasBeenRolled)
    {
      ds[i].Deselect();
    }
  }
}
