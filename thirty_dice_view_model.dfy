/** The string-keyed score ledger of ThirtyDiceGameViewModel.kt: scores recorded under the
    category labels, and the labels still open. */
module ThirtyDiceViewModel {
  import opened ScoreOptions
  import opened Lists
  import opened Ledger

  /** The open labels a new view model starts with. */
  const InitialLabels: seq<string> := ["Low", "4", "5", "6", "7", "8", "9", "10", "11", "12"]

  /** The labels of the ten categories, in declaration order. */
  function LabelsOf(os: seq<ScoreOption>): (r: seq<string>)
    ensures |r| == |os| && forall i :: 0 <= i < |os| ==> r[i] == Label(os[i])
  {
    if os == [] then [] else [Label(os[0])] + LabelsOf(os[1..])
  }

  /** The starting labels are the labels of the ten categories, in their order. */
  lemma {:induction false} InitialLabelsAreCategoryLabels()
    ensures InitialLabels == LabelsOf(Entries)
  {
    assert LabelsOf(Entries) == ["Low"] + LabelsOf(Entries[1..]);
    assert Entries[1..] == [Four, Five, Six, Seven, Eight, Nine, Ten, Eleven, Twelve];
    assert LabelsOf([Four, Five, Six, Seven, Eight, Nine, Ten, Eleven, Twelve]) == ["4"] + LabelsOf([Five, Six, Seven, Eight, Nine, Ten, Eleven, Twelve]);
  }

  /** No label starts out twice in the open list. */
  lemma {:induction false} InitialLabelsDistinct()
    ensures NoDuplicates(InitialLabels)
  {
    InitialLabelsAreCategoryLabels();
    EntriesAreAllCategories();
    forall i, j | 0 <= i < j < |InitialLabels| ensures InitialLabels[i] != InitialLabels[j] {
      LabelsDistinct(Entries[i], Entries[j]);
    }
  }

  class ThirtyDiceGameViewModel {
    var scoreMap: map<string, int>
    var remainingCategories: seq<string>

    /** The book the two fields make up. */
    function Book(): Book<string>
      reads this
    {
      Ledger.Book(scoreMap, remainingCategories)
    }

    constructor ()
      ensures scoreMap == map[] && remainingCategories == InitialLabels
      ensures ScoredNotOpen(Book()) && Accounted(InitialLabels, Book())
    {
      scoreMap := map[];
      remainingCategories := InitialLabels;
    }

    /** `registerScore`: an unscored label gets its score and leaves the open list; a
        scored label changes nothing. */
    method RegisterScore(category: string, score: int)
      modifies this
      ensures Book() == RegisterFiltered(old(Book()), category, score)
      ensures old(ScoredNotOpen(Book())) ==> ScoredNotOpen(Book())
    {
      if category !in scoreMap {
        scoreMap := scoreMap[category := score];
        RemoveCategory(category);
      }
    }

    /** `removeCategory`: every occurrence of the label leaves the open list; the others
        keep their order. */
    method RemoveCategory(category: string)
      modifies this
      ensures remainingCategories == Without(old(remainingCategories), category)
      ensures scoreMap == old(scoreMap)
    {
      remainingCategories := Without(remainingCategories, category);
    }

    /** `useCategory`: the label leaves the open list and no score is recorded. */
    method UseCategory(category: string)
      modifies this
      ensures remainingCategories == Without(old(remainingCategories), category)
      ensures scoreMap == old(scoreMap)
      ensures old(ScoredNotOpen(Book())) ==> ScoredNotOpen(Book())
    {
      RemoveCategory(category);
    }

    /** `getTotalScore`: the sum of the recorded scores. */
    method GetTotalScore() returns (total: int)
      ensures total == SumValues(scoreMap)
    {
      total := TotalScore(scoreMap);
    }
  }
}
