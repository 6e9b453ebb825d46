/** The scoring rules of Thirty (models/ScoreCalculator.kt).
    `Score` is the whole calculation as a function; `CalculateScore` is the
    program's own procedure, whose subset enumeration works by backtracking on
    mutable state and is proved to compute `Score`. */
module ScoreCalculator {
  import opened Wrappers
  import opened ScoreOptions
  import opened Lists

  /** The reasons the source reports through `Result.failure`. */
  datatype ScoreError =
    | NoDiceSelected
    | InvalidForLow
    | InvalidCategory(categoryLabel: string)
    | NoValidGrouping(target: int)

  /** `List<Int>.sum()`. */
  function Sum(s: seq<int>): int
  {
    if s == [] then 0 else Sum(s[..|s| - 1]) + s[|s| - 1]
  }

  /** `List<List<Int>>.flatten()`. */
  function Flatten(xss: seq<seq<int>>): seq<int>
  {
    if xss == [] then [] else xss[0] + Flatten(xss[1..])
  }

  /** A subset found in phase one: its face values and the dice indices they came from
      (`Pair<List<Int>, Set<Int>>`). */
  datatype Candidate = Candidate(values: seq<int>, indices: set<int>)

  // ---------------------------------------------------------------------------
  // The calculation as functions
  // ---------------------------------------------------------------------------

  /** `calculateLowScore`: only faces of 3 or less are allowed; the score is their sum. */
  function LowScore(dice: seq<int>): Result<int, ScoreError>
  {
    if exists i :: 0 <= i < |dice| && dice[i] > 3 then Failure(InvalidForLow)
    else Success(Sum(dice))
  }

  /** Phase one, `generateSubsets(start, current, indices, currentSum)`: the candidates
      recorded from this call, in the order the backtracking records them. */
  function Gen(dice: seq<int>, target: int, start: nat, current: seq<int>, indices: set<int>, currentSum: int): seq<Candidate>
    requires start <= |dice|
    decreases |dice| - start, 1
  {
    if currentSum == target then [Candidate(current, indices)]
    else if currentSum > target then []
    else GenFrom(dice, target, start, current, indices, currentSum)
  }

  /** The iterations `i`, `i + 1`, ... of the `for` loop inside `generateSubsets`. */
  function GenFrom(dice: seq<int>, target: int, i: nat, current: seq<int>, indices: set<int>, currentSum: int): seq<Candidate>
    requires i <= |dice|
    decreases |dice| - i, 0
  {
    if i == |dice| then []
    else if i in indices then GenFrom(dice, target, i + 1, current, indices, currentSum)
    else
      Gen(dice, target, i + 1, current + [dice[i]], indices + {i}, currentSum + dice[i])
      + GenFrom(dice, target, i + 1, current, indices, currentSum)
  }

  /** Phase two, `search(usedIndices, selectedSubsets, remaining)`: `n` is `dice.size`. */
  function Search(n: nat, used: set<int>, selected: seq<seq<int>>, remaining: seq<Candidate>): Option<seq<seq<int>>>
    decreases |remaining|, 1, 0
  {
    if |used| == n then Some(selected)
    else if remaining == [] then None
    else SearchFrom(n, used, selected, remaining, 0)
  }

  /** The `for` loop of `search` from the `k`-th remaining candidate on: a candidate that
      overlaps the used indices is skipped, otherwise the search recurses without it and
      the first success is returned. */
  function SearchFrom(n: nat, used: set<int>, selected: seq<seq<int>>, remaining: seq<Candidate>, k: nat): Option<seq<seq<int>>>
    requires k <= |remaining|
    decreases |remaining|, 0, |remaining| - k
  {
    if k == |remaining| then None
    else
      var c := remaining[k];
      if !(c.indices !! used) then SearchFrom(n, used, selected, remaining, k + 1)
      else
        RemoveFirstMembers(remaining, c);
        match Search(n, used + c.indices, selected + [c.values], RemoveFirst(remaining, c))
        case Some(r) => Some(r)
        case None => SearchFrom(n, used, selected, remaining, k + 1)
  }

  /** `findExactCoverSubsets(dice, target)`. */
  function ExactCover(dice: seq<int>, target: int): Option<seq<seq<int>>>
  {
    Search(|dice|, {}, [], Gen(dice, target, 0, [], {}, 0))
  }

  /** `calculateCategoryScore`: the target is the parsed label; the score is the sum of
      all dice in the cover found. */
  function CategoryScore(category: ScoreOption, dice: seq<int>): Result<int, ScoreError>
  {
    match ParseInt(Label(category))
    case None => Failure(InvalidCategory(Label(category)))
    case Some(target) =>
      match ExactCover(dice, target)
      case None => Failure(NoValidGrouping(target))
      case Some(groups) => Success(Sum(Flatten(groups)))
  }

  /** `calculateScore`. */
  function Score(category: ScoreOption, dice: seq<int>): Result<int, ScoreError>
  {
    if dice == [] then Failure(NoDiceSelected)
    else if category == Low then LowScore(dice)
    else CategoryScore(category, dice)
  }

  // ---------------------------------------------------------------------------
  // The calculation as the source performs it
  // ---------------------------------------------------------------------------

  /** The state that the local function `generateSubsets` shares across its recursive
      calls: the lists it mutates and the list it appends its findings to. */
  class SubsetGenerator {
    const dice: seq<int>
    const target: int
    var current: seq<int>
    var indices: set<int>
    var validSubsets: seq<Candidate>

    constructor (dice: seq<int>, target: int)
      ensures this.dice == dice && this.target == target
      ensures current == [] && indices == {} && validSubsets == []
    {
      this.dice := dice;
      this.target := target;
      current, indices, validSubsets := [], {}, [];
    }

    /** Appends every subset that extends `current` with dice from `start` on and sums to
        `target`; `current` and `indices` are put back as they were. */
    method Generate(start: nat, currentSum: int)
      requires start <= |dice|
      modifies this
      ensures current == old(current) && indices == old(indices)
      ensures validSubsets == old(validSubsets) + Gen(dice, target, start, old(current), old(indices), currentSum)
      decreases |dice| - start
    {
      if currentSum == target {
        validSubsets := validSubsets + [Candidate(current, indices)];
        return;
      }
      if currentSum > target {
        return;
      }
      for i := start to |dice|
        invariant current == old(current) && indices == old(indices)
        invariant validSubsets + GenFrom(dice, target, i, current, indices, currentSum)
               == old(validSubsets) + GenFrom(dice, target, start, current, indices, currentSum)
      {
        if i in indices {
          continue;
        }
        current := current + [dice[i]];
        indices := indices + {i};
        Generate(i + 1, currentSum + dice[i]);
        current := current[..|current| - 1];
        indices := indices - {i};
      }
    }
  }

  /** `findExactCoverSubsets`: phase one on a fresh generator, then phase two. */
  method FindExactCoverSubsets(dice: seq<int>, target: int) returns (r: Option<seq<seq<int>>>)
    ensures r == ExactCover(dice, target)
  {
    var generator := new SubsetGenerator(dice, target);
    generator.Generate(0, 0);
    assert generator.validSubsets == Gen(dice, target, 0, [], {}, 0);
    r := Search(|dice|, {}, [], generator.validSubsets);
  }

  /** `calculateCategoryScore`. */
  method CalculateCategoryScore(category: ScoreOption, dice: seq<int>) returns (r: Result<int, ScoreError>)
    ensures r == CategoryScore(category, dice)
  {
    var target := ParseInt(Label(category));
    if target.None? {
      return Failure(InvalidCategory(Label(category)));
    }
    var subsets := FindExactCoverSubsets(dice, target.value);
    if subsets.None? {
      r := Failure(NoValidGrouping(target.value));
    } else {
      r := Success(Sum(Flatten(subsets.value)));
    }
  }

  /** `calculateScore`. */
  method CalculateScore(category: ScoreOption, dice: seq<int>) returns (r: Result<int, ScoreError>)
    ensures r == Score(category, dice)
  {
    if dice == [] {
      return Failure(NoDiceSelected);
    }
    if category == Low {
      r := LowScore(dice);
    } else {
      r := CalculateCategoryScore(category, dice);
    }
  }
}
