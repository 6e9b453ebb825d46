/** What the scoring rules mean, stated without the search: a numeric category accepts
    the selected dice exactly when their indices split into disjoint, non-empty groups
    that each sum to the target and together use every die; the score is then the sum
    of all the dice. */
module ScoreCalculatorProofs {
  import opened Wrappers
  import opened ScoreOptions
  import opened Lists
  import opened ScoreCalculator

  // ---------------------------------------------------------------------------
  // Declarative vocabulary
  // ---------------------------------------------------------------------------

  /** The indices of a list of `n` dice. */
  ghost function Indices(n: nat): (r: set<int>)
    ensures forall i :: i in r <==> 0 <= i < n
  {
    if n == 0 then {} else Indices(n - 1) + {n - 1}
  }

  /** The faces at the indices in `s` below `k`, in increasing index order. */
  ghost function ValuesAt(dice: seq<int>, s: set<int>, k: nat): seq<int>
    requires k <= |dice|
  {
    if k == 0 then [] else ValuesAt(dice, s, k - 1) + (if k - 1 in s then [dice[k - 1]] else [])
  }

  /** The sum of the faces at the indices in `s`. */
  ghost function SetSum(dice: seq<int>, s: set<int>): int
  {
    Sum(ValuesAt(dice, s, |dice|))
  }

  /** A candidate phase one may record: a set of dice indices, read in increasing order,
      whose faces sum to the target. */
  ghost predicate ValidCandidate(dice: seq<int>, target: int, c: Candidate)
  {
    && c.indices <= Indices(|dice|)
    && c.values == ValuesAt(dice, c.indices, |dice|)
    && Sum(c.values) == target
  }

  ghost function Union(gs: seq<set<int>>): set<int>
  {
    if gs == [] then {} else gs[0] + Union(gs[1..])
  }

  ghost predicate PairwiseDisjoint(gs: seq<set<int>>)
  {
    forall j, k :: 0 <= j < k < |gs| ==> gs[j] !! gs[k]
  }

  /** `groups` is an exact cover of the dice by groups summing to `target`. */
  ghost predicate IsExactCover(dice: seq<int>, target: int, groups: seq<set<int>>)
  {
    && (forall j :: 0 <= j < |groups| ==> groups[j] != {} && groups[j] <= Indices(|dice|) && SetSum(dice, groups[j]) == target)
    && PairwiseDisjoint(groups)
    && Union(groups) == Indices(|dice|)
  }

  ghost predicate CoverExists(dice: seq<int>, target: int)
  {
    exists groups :: IsExactCover(dice, target, groups)
  }

  ghost predicate AllPositive(dice: seq<int>)
  {
    forall i :: 0 <= i < |dice| ==> dice[i] >= 1
  }

  ghost function IndexSets(cs: seq<Candidate>): (r: seq<set<int>>)
    ensures |r| == |cs| && forall j :: 0 <= j < |cs| ==> r[j] == cs[j].indices
  {
    seq(|cs|, j requires 0 <= j < |cs| => cs[j].indices)
  }

  ghost function ValuesOf(cs: seq<Candidate>): (r: seq<seq<int>>)
    ensures |r| == |cs| && forall j :: 0 <= j < |cs| ==> r[j] == cs[j].values
  {
    seq(|cs|, j requires 0 <= j < |cs| => cs[j].values)
  }

  // ---------------------------------------------------------------------------
  // Sums, index sets and faces
  // ---------------------------------------------------------------------------

  lemma {:induction false} SumAppend(a: seq<int>, b: seq<int>)
    ensures Sum(a + b) == Sum(a) + Sum(b)
  {
    if b != [] {
      assert (a + b)[..|a + b| - 1] == a + b[..|b| - 1];
      SumAppend(a, b[..|b| - 1]);
    } else {
      assert a + b == a;
    }
  }

  lemma {:induction false} SumFlatten(xss: seq<seq<int>>, target: int)
    requires forall j :: 0 <= j < |xss| ==> Sum(xss[j]) == target
    ensures Sum(Flatten(xss)) == target * |xss|
  {
    if xss != [] {
      var tail := xss[1..];
      forall j | 0 <= j < |tail| ensures Sum(tail[j]) == target {
        assert tail[j] == xss[j + 1];
      }
      SumFlatten(tail, target);
      assert Flatten(xss) == xss[0] + Flatten(tail);
      SumAppend(xss[0], Flatten(tail));
      MulSucc(target, |tail|);
    }
  }

  lemma {:induction false} IndicesSize(n: nat)
    ensures |Indices(n)| == n
  {
    if n > 0 {
      assert Indices(n) == Indices(n - 1) + {n - 1} && n - 1 !in Indices(n - 1);
      IndicesSize(n - 1);
    } else {
      assert Indices(0) == {};
    }
  }

  /** A set of indices as large as all of them is all of them. */
  lemma {:induction false} FullIndexSet(used: set<int>, n: nat)
    requires used <= Indices(n) && |used| == n
    ensures used == Indices(n)
  {
    IndicesSize(n);
    var rest := Indices(n) - used;
    assert Indices(n) == used + rest;
    assert |rest| == 0;
  }

  /** Only the members of `s` below `k` decide `ValuesAt(dice, s, k)`. */
  lemma {:induction false} ValuesAtAgree(dice: seq<int>, s: set<int>, t: set<int>, k: nat)
    requires k <= |dice|
    requires forall i :: 0 <= i < k ==> (i in s <==> i in t)
    ensures ValuesAt(dice, s, k) == ValuesAt(dice, t, k)
  {
    if k > 0 {
      ValuesAtAgree(dice, s, t, k - 1);
    }
  }

  /** Indices in `[j, k)` that are not in `s` add nothing. */
  lemma {:induction false} ValuesAtBeyond(dice: seq<int>, s: set<int>, j: nat, k: nat)
    requires j <= k <= |dice|
    requires forall i :: j <= i < k ==> i !in s
    ensures ValuesAt(dice, s, k) == ValuesAt(dice, s, j)
  {
    if j < k {
      ValuesAtBeyond(dice, s, j, k - 1);
    }
  }

  /** The sum over two disjoint index sets is the sum of the two sums. */
  lemma {:induction false} SumAtUnion(dice: seq<int>, s: set<int>, t: set<int>, k: nat)
    requires k <= |dice| && s !! t
    ensures Sum(ValuesAt(dice, s + t, k)) == Sum(ValuesAt(dice, s, k)) + Sum(ValuesAt(dice, t, k))
  {
    if k > 0 {
      SumAtUnion(dice, s, t, k - 1);
      SumAppend(ValuesAt(dice, s + t, k - 1), if k - 1 in s + t then [dice[k - 1]] else []);
      SumAppend(ValuesAt(dice, s, k - 1), if k - 1 in s then [dice[k - 1]] else []);
      SumAppend(ValuesAt(dice, t, k - 1), if k - 1 in t then [dice[k - 1]] else []);
    }
  }

  /** With faces of at least 1, a set holding some index below `k` has a positive sum. */
  lemma {:induction false} SumAtPositive(dice: seq<int>, s: set<int>, k: nat, m: int)
    requires k <= |dice| && AllPositive(dice)
    requires m in s && 0 <= m < k
    ensures Sum(ValuesAt(dice, s, k)) > 0
  {
    SumAtNonNegative(dice, s, k - 1);
    SumAppend(ValuesAt(dice, s, k - 1), if k - 1 in s then [dice[k - 1]] else []);
    if m < k - 1 {
      SumAtPositive(dice, s, k - 1, m);
    }
  }

  lemma {:induction false} SumAtNonNegative(dice: seq<int>, s: set<int>, k: nat)
    requires k <= |dice| && AllPositive(dice)
    ensures Sum(ValuesAt(dice, s, k)) >= 0
  {
    if k > 0 {
      SumAtNonNegative(dice, s, k - 1);
      SumAppend(ValuesAt(dice, s, k - 1), if k - 1 in s then [dice[k - 1]] else []);
    }
  }

  /** Reading every index gives back the dice. */
  lemma {:induction false} ValuesAtAll(dice: seq<int>, k: nat)
    requires k <= |dice|
    ensures ValuesAt(dice, Indices(|dice|), k) == dice[..k]
  {
    if k > 0 {
      ValuesAtAll(dice, k - 1);
      assert dice[..k] == dice[..k - 1] + [dice[k - 1]];
    }
  }

  lemma {:induction false} SetSumAll(dice: seq<int>)
    ensures SetSum(dice, Indices(|dice|)) == Sum(dice)
  {
    ValuesAtAll(dice, |dice|);
    assert dice[..|dice|] == dice;
  }

  // ---------------------------------------------------------------------------
  // Phase one: the candidates are exactly the index sets summing to the target
  // ---------------------------------------------------------------------------

  /** Every candidate recorded from a call whose `current` lists the faces at `indices`
      (all below `start`) in order is valid. */
  lemma {:induction false} GenSound(dice: seq<int>, target: int, start: nat, current: seq<int>, indices: set<int>, currentSum: int)
    requires start <= |dice| && indices <= Indices(start)
    requires current == ValuesAt(dice, indices, start) && currentSum == Sum(current)
    ensures forall c :: c in Gen(dice, target, start, current, indices, currentSum) ==> ValidCandidate(dice, target, c)
    decreases |dice| - start, 1
  {
    if currentSum == target {
      ValuesAtBeyond(dice, indices, start, |dice|);
    } else if currentSum < target {
      GenFromSound(dice, target, start, current, indices, currentSum);
    }
  }

  lemma {:induction false} GenFromSound(dice: seq<int>, target: int, i: nat, current: seq<int>, indices: set<int>, currentSum: int)
    requires i <= |dice| && indices <= Indices(i)
    requires current == ValuesAt(dice, indices, i) && currentSum == Sum(current)
    ensures forall c :: c in GenFrom(dice, target, i, current, indices, currentSum) ==> ValidCandidate(dice, target, c)
    decreases |dice| - i, 0
  {
    if i < |dice| {
      GrowState(dice, i, current, indices, currentSum);
      GenSound(dice, target, i + 1, current + [dice[i]], indices + {i}, currentSum + dice[i]);
      GenFromSound(dice, target, i + 1, current, indices, currentSum);
      var withI := Gen(dice, target, i + 1, current + [dice[i]], indices + {i}, currentSum + dice[i]);
      var withoutI := GenFrom(dice, target, i + 1, current, indices, currentSum);
      assert GenFrom(dice, target, i, current, indices, currentSum) == withI + withoutI;
    }
  }

  /** One step of the loop of `generateSubsets` keeps its state in step with the indices:
      taking index `i` appends its face and adds it to the sum, skipping it changes
      nothing. */
  lemma {:induction false} GrowState(dice: seq<int>, i: nat, current: seq<int>, indices: set<int>, currentSum: int)
    requires i < |dice| && indices <= Indices(i)
    requires current == ValuesAt(dice, indices, i) && currentSum == Sum(current)
    ensures i !in indices && indices + {i} <= Indices(i + 1) && indices <= Indices(i + 1)
    ensures current + [dice[i]] == ValuesAt(dice, indices + {i}, i + 1)
    ensures currentSum + dice[i] == Sum(current + [dice[i]])
    ensures current == ValuesAt(dice, indices, i + 1)
  {
    assert i !in indices;
    ValuesAtAgree(dice, indices + {i}, indices, i);
    SumAppend(current, [dice[i]]);
  }

  /** With faces of at least 1, every index set `s` summing to the target that agrees with
      `indices` below `start` is recorded from that call. */
  lemma {:induction false} GenComplete(dice: seq<int>, target: int, start: nat, current: seq<int>, indices: set<int>, currentSum: int, s: set<int>)
    requires AllPositive(dice)
    requires start <= |dice| && indices <= Indices(start)
    requires current == ValuesAt(dice, indices, start) && currentSum == Sum(current)
    requires s <= Indices(|dice|) && forall i :: 0 <= i < start ==> (i in s <==> i in indices)
    requires SetSum(dice, s) == target
    ensures Candidate(ValuesAt(dice, s, |dice|), s) in Gen(dice, target, start, current, indices, currentSum)
    decreases |dice| - start, 2
  {
    ValuesAtBeyond(dice, indices, start, |dice|);
    if s == indices {
      assert currentSum == target;
    } else {
      var extra := s - indices;
      assert s == indices + extra;
      var m :| m in extra;
      SumAtUnion(dice, indices, extra, |dice|);
      SumAtPositive(dice, extra, |dice|, m);
      GenFromComplete(dice, target, start, current, indices, currentSum, s, m);
    }
  }

  lemma {:induction false} GenFromComplete(dice: seq<int>, target: int, i: nat, current: seq<int>, indices: set<int>, currentSum: int, s: set<int>, m: int)
    requires AllPositive(dice)
    requires i <= |dice| && indices <= Indices(i)
    requires current == ValuesAt(dice, indices, i) && currentSum == Sum(current)
    requires s <= Indices(|dice|) && forall j :: 0 <= j < i ==> (j in s <==> j in indices)
    requires m in s && m !in indices
    requires SetSum(dice, s) == target
    ensures Candidate(ValuesAt(dice, s, |dice|), s) in GenFrom(dice, target, i, current, indices, currentSum)
    decreases |dice| - i, 1
  {
    if i == |dice| {
      assert false;
    }
    assert i !in indices;
    var withI := Gen(dice, target, i + 1, current + [dice[i]], indices + {i}, currentSum + dice[i]);
    var withoutI := GenFrom(dice, target, i + 1, current, indices, currentSum);
    assert GenFrom(dice, target, i, current, indices, currentSum) == withI + withoutI;
    if i in s {
      GrowState(dice, i, current, indices, currentSum);
      GrowAgree(s, indices, i);
      GenComplete(dice, target, i + 1, current + [dice[i]], indices + {i}, currentSum + dice[i], s);
    } else {
      GenFromSkip(dice, target, i, current, indices, currentSum, s, m);
    }
  }


  /** The iteration at `i`, outside `s`: the branch that skips `i` produces `s`. */
  lemma {:induction false} GenFromSkip(dice: seq<int>, target: int, i: nat, current: seq<int>, indices: set<int>, currentSum: int, s: set<int>, m: int)
    requires AllPositive(dice)
    requires i < |dice| && indices <= Indices(i)
    requires current == ValuesAt(dice, indices, i) && currentSum == Sum(current)
    requires s <= Indices(|dice|) && forall j :: 0 <= j < i ==> (j in s <==> j in indices)
    requires i !in s && m in s && m !in indices
    requires SetSum(dice, s) == target
    ensures Candidate(ValuesAt(dice, s, |dice|), s) in GenFrom(dice, target, i + 1, current, indices, currentSum)
    decreases |dice| - i, 0
  {
    GrowState(dice, i, current, indices, currentSum);
    SkipAgree(s, indices, i);
    GenFromComplete(dice, target, i + 1, current, indices, currentSum, s, m);
  }

  /** An index set that agrees with `indices` below `i` and, like it, lacks `i` agrees with
      it below `i + 1`. */
  lemma {:induction false} SkipAgree(s: set<int>, indices: set<int>, i: nat)
    requires forall j :: 0 <= j < i ==> (j in s <==> j in indices)
    requires i !in s && i !in indices
    ensures forall j :: 0 <= j < i + 1 ==> (j in s <==> j in indices)
  {
  }

  /** An index set that agrees with `indices` below `i` and holds `i` agrees with
      `indices` plus `i` below `i + 1`. */
  lemma {:induction false} GrowAgree(s: set<int>, indices: set<int>, i: nat)
    requires forall j :: 0 <= j < i ==> (j in s <==> j in indices)
    requires i in s
    ensures forall j :: 0 <= j < i + 1 ==> (j in s <==> j in indices + {i})
  {
  }

  // ---------------------------------------------------------------------------
  // Phase two: the search succeeds exactly when candidates cover the dice
  // ---------------------------------------------------------------------------

  lemma {:induction false} UnionCons(c: set<int>, gs: seq<set<int>>)
    ensures Union([c] + gs) == c + Union(gs)
  {
    assert ([c] + gs)[1..] == gs;
  }

  lemma {:induction false} UnionConcat(a: seq<set<int>>, b: seq<set<int>>)
    ensures Union(a + b) == Union(a) + Union(b)
  {
    if a == [] {
      assert a + b == b;
    } else {
      assert (a + b)[1..] == a[1..] + b;
      UnionConcat(a[1..], b);
    }
  }

  lemma {:induction false} UnionMember(gs: seq<set<int>>, j: nat)
    requires j < |gs|
    ensures gs[j] <= Union(gs)
  {
    if j > 0 {
      UnionMember(gs[1..], j - 1);
    }
  }

  lemma {:induction false} UnionElement(gs: seq<set<int>>, x: int) returns (j: nat)
    requires x in Union(gs)
    ensures j < |gs| && x in gs[j]
  {
    if x in gs[0] {
      j := 0;
    } else {
      j := UnionElement(gs[1..], x);
      j := j + 1;
    }
  }

  /** Dropping the `k`-th group loses at most its members from the union. */
  lemma {:induction false} UnionDrop(gs: seq<set<int>>, k: nat)
    requires k < |gs|
    ensures Union(gs[..k] + gs[k + 1..]) + gs[k] == Union(gs)
  {
    assert gs == gs[..k] + ([gs[k]] + gs[k + 1..]);
    UnionConcat(gs[..k], [gs[k]] + gs[k + 1..]);
    UnionCons(gs[k], gs[k + 1..]);
    UnionConcat(gs[..k], gs[k + 1..]);
  }

  /** Dropping the `k`-th group of disjoint groups leaves disjoint groups that avoid it. */
  lemma {:induction false} DisjointDrop(gs: seq<set<int>>, k: nat)
    requires k < |gs| && PairwiseDisjoint(gs)
    ensures Union(gs[..k] + gs[k + 1..]) !! gs[k]
    ensures PairwiseDisjoint(gs[..k] + gs[k + 1..])
  {
    var rest := gs[..k] + gs[k + 1..];
    assert forall j :: 0 <= j < |rest| ==> rest[j] == gs[if j < k then j else j + 1];
    forall x | x in Union(rest) ensures x !in gs[k] {
      var j := UnionElement(rest, x);
      var g := if j < k then j else j + 1;
      assert rest[j] == gs[g];
      if g < k {
        assert gs[g] !! gs[k];
      } else {
        assert gs[k] !! gs[g];
      }
    }
  }

  /** Adding a candidate that avoids `used` in front of a choice that avoids it and `used`
      keeps the choice disjoint and covering. */
  lemma {:induction false} ExtendChoice(used: set<int>, all: set<int>, c: Candidate, more: seq<Candidate>)
    requires c.indices !! used
    requires PairwiseDisjoint(IndexSets(more)) && (used + c.indices) !! Union(IndexSets(more))
    requires used + c.indices + Union(IndexSets(more)) == all
    ensures PairwiseDisjoint(IndexSets([c] + more)) && used !! Union(IndexSets([c] + more))
    ensures used + Union(IndexSets([c] + more)) == all
  {
    var chosen := [c] + more;
    assert IndexSets(chosen) == [c.indices] + IndexSets(more);
    UnionCons(c.indices, IndexSets(more));
    forall j, l | 0 <= j < l < |chosen| ensures IndexSets(chosen)[j] !! IndexSets(chosen)[l] {
      if j > 0 {
        assert IndexSets(more)[j - 1] !! IndexSets(more)[l - 1];
      } else {
        UnionMember(IndexSets(more), l - 1);
      }
    }
  }

  /** Removing the `jw`-th candidate of a disjoint cover, and covering its indices instead,
      leaves a disjoint cover of what remains. */
  lemma {:induction false} DropFromCover(used: set<int>, all: set<int>, cover: seq<Candidate>, jw: nat)
    requires jw < |cover|
    requires forall j :: 0 <= j < |cover| ==> cover[j].indices != {}
    requires PairwiseDisjoint(IndexSets(cover)) && used !! Union(IndexSets(cover))
    requires used + Union(IndexSets(cover)) == all
    ensures var others := cover[..jw] + cover[jw + 1..];
      && cover[jw].indices !! used
      && PairwiseDisjoint(IndexSets(others)) && (used + cover[jw].indices) !! Union(IndexSets(others))
      && used + cover[jw].indices + Union(IndexSets(others)) == all
      && forall j :: 0 <= j < |others| ==> others[j] != cover[jw] && others[j] in cover
  {
    var others := cover[..jw] + cover[jw + 1..];
    assert IndexSets(others) == IndexSets(cover)[..jw] + IndexSets(cover)[jw + 1..];
    UnionDrop(IndexSets(cover), jw);
    DisjointDrop(IndexSets(cover), jw);
    UnionMember(IndexSets(cover), jw);
    forall j | 0 <= j < |others| ensures others[j] != cover[jw] && others[j] in cover {
      var g := if j < jw then j else j + 1;
      assert others[j] == cover[g];
      if g < jw {
        assert IndexSets(cover)[g] !! IndexSets(cover)[jw];
      } else {
        assert IndexSets(cover)[jw] !! IndexSets(cover)[g];
      }
    }
  }

  /** A successful search chose, from `remaining`, candidates that are pairwise disjoint,
      avoid `used`, and together with `used` cover every index; the answer lists their
      faces after `selected`. */
  lemma {:induction false} SearchSound(dice: seq<int>, target: int, used: set<int>, selected: seq<seq<int>>, remaining: seq<Candidate>)
    returns (chosen: seq<Candidate>)
    requires used <= Indices(|dice|)
    requires forall c :: c in remaining ==> ValidCandidate(dice, target, c)
    requires Search(|dice|, used, selected, remaining).Some?
    ensures forall j :: 0 <= j < |chosen| ==> chosen[j] in remaining
    ensures PairwiseDisjoint(IndexSets(chosen)) && used !! Union(IndexSets(chosen))
    ensures used + Union(IndexSets(chosen)) == Indices(|dice|)
    ensures Search(|dice|, used, selected, remaining).value == selected + ValuesOf(chosen)
    decreases |remaining|, 1, 0
  {
    if |used| == |dice| {
      FullIndexSet(used, |dice|);
      chosen := [];
      assert selected + ValuesOf(chosen) == selected;
    } else {
      chosen := SearchFromSound(dice, target, used, selected, remaining, 0);
    }
  }

  lemma {:induction false} SearchFromSound(dice: seq<int>, target: int, used: set<int>, selected: seq<seq<int>>, remaining: seq<Candidate>, k: nat)
    returns (chosen: seq<Candidate>)
    requires k <= |remaining|
    requires used <= Indices(|dice|)
    requires forall c :: c in remaining ==> ValidCandidate(dice, target, c)
    requires SearchFrom(|dice|, used, selected, remaining, k).Some?
    ensures forall j :: 0 <= j < |chosen| ==> chosen[j] in remaining
    ensures PairwiseDisjoint(IndexSets(chosen)) && used !! Union(IndexSets(chosen))
    ensures used + Union(IndexSets(chosen)) == Indices(|dice|)
    ensures SearchFrom(|dice|, used, selected, remaining, k).value == selected + ValuesOf(chosen)
    decreases |remaining|, 0, |remaining| - k
  {
    if k == |remaining| {
      assert false;
    }
    var c := remaining[k];
    if !(c.indices !! used) {
      assert SearchFrom(|dice|, used, selected, remaining, k) == SearchFrom(|dice|, used, selected, remaining, k + 1);
      chosen := SearchFromSound(dice, target, used, selected, remaining, k + 1);
      return;
    }
    var rest := RemoveFirst(remaining, c);
    var inner := Search(|dice|, used + c.indices, selected + [c.values], rest);
    if inner.None? {
      assert SearchFrom(|dice|, used, selected, remaining, k) == SearchFrom(|dice|, used, selected, remaining, k + 1);
      chosen := SearchFromSound(dice, target, used, selected, remaining, k + 1);
      return;
    }
    assert SearchFrom(|dice|, used, selected, remaining, k) == inner;
    RemoveFirstMembers(remaining, c);
    assert c.indices <= Indices(|dice|);
    var more := SearchSound(dice, target, used + c.indices, selected + [c.values], rest);
    chosen := ChooseFirst(used, Indices(|dice|), selected, remaining, c, more);
  }

  /** Putting `c` in front of the candidates chosen after it. */
  lemma {:induction false} ChooseFirst(used: set<int>, all: set<int>, selected: seq<seq<int>>, remaining: seq<Candidate>, c: Candidate, more: seq<Candidate>)
    returns (chosen: seq<Candidate>)
    requires c in remaining && c.indices !! used
    requires forall j :: 0 <= j < |more| ==> more[j] in RemoveFirst(remaining, c)
    requires PairwiseDisjoint(IndexSets(more)) && (used + c.indices) !! Union(IndexSets(more))
    requires used + c.indices + Union(IndexSets(more)) == all
    ensures chosen == [c] + more
    ensures forall j :: 0 <= j < |chosen| ==> chosen[j] in remaining
    ensures PairwiseDisjoint(IndexSets(chosen)) && used !! Union(IndexSets(chosen))
    ensures used + Union(IndexSets(chosen)) == all
    ensures (selected + [c.values]) + ValuesOf(more) == selected + ValuesOf(chosen)
  {
    chosen := [c] + more;
    ExtendChoice(used, all, c, more);
    assert ValuesOf(chosen) == [c.values] + ValuesOf(more);
    RemoveFirstMembers(remaining, c);
    forall j | 0 <= j < |chosen| ensures chosen[j] in remaining {
      if j > 0 {
        assert chosen[j] == more[j - 1] && more[j - 1] in RemoveFirst(remaining, c);
      }
    }
  }

  /** If disjoint, non-empty candidates from `remaining` complete `used` to every index,
      the search succeeds. */
  lemma {:induction false} SearchComplete(dice: seq<int>, target: int, used: set<int>, selected: seq<seq<int>>, remaining: seq<Candidate>, cover: seq<Candidate>)
    requires used <= Indices(|dice|)
    requires forall j :: 0 <= j < |cover| ==> cover[j] in remaining && cover[j].indices != {}
    requires PairwiseDisjoint(IndexSets(cover)) && used !! Union(IndexSets(cover))
    requires used + Union(IndexSets(cover)) == Indices(|dice|)
    ensures Search(|dice|, used, selected, remaining).Some?
    decreases |remaining|, 1, 0
  {
    if cover == [] {
      assert Union(IndexSets(cover)) == {};
      IndicesSize(|dice|);
    } else if |used| != |dice| {
      var kw :| 0 <= kw < |remaining| && remaining[kw] == cover[0];
      SearchFromComplete(dice, target, used, selected, remaining, cover, 0, kw, 0);
    }
  }

  /** The requirements of `SearchComplete`, gathered: `cover` is a list of non-empty,
      pairwise disjoint candidates still on offer that covers exactly what `used` leaves. */
  ghost predicate CoverLeft(n: nat, used: set<int>, remaining: seq<Candidate>, cover: seq<Candidate>)
  {
    && used <= Indices(n)
    && (forall j :: 0 <= j < |cover| ==> cover[j] in remaining && cover[j].indices != {})
    && PairwiseDisjoint(IndexSets(cover)) && used !! Union(IndexSets(cover))
    && used + Union(IndexSets(cover)) == Indices(n)
  }

  lemma {:induction false} SearchFromComplete(dice: seq<int>, target: int, used: set<int>, selected: seq<seq<int>>, remaining: seq<Candidate>, cover: seq<Candidate>, k: nat, kw: nat, jw: nat)
    requires k <= kw < |remaining| && jw < |cover| && remaining[kw] == cover[jw]
    requires CoverLeft(|dice|, used, remaining, cover)
    ensures SearchFrom(|dice|, used, selected, remaining, k).Some?
    decreases |remaining|, 0, |remaining| - k
  {
    if k < kw {
      SearchFromComplete(dice, target, used, selected, remaining, cover, k + 1, kw, jw);
      SearchFromStep(|dice|, used, selected, remaining, k);
    } else {
      TakeCoverMember(dice, target, used, selected, remaining, cover, kw, jw);
    }
  }

  /** When the loop of `search` succeeds from the next candidate on, it succeeds from this
      one: either this candidate leads to a success or the loop moves on. */
  lemma {:induction false} SearchFromStep(n: nat, used: set<int>, selected: seq<seq<int>>, remaining: seq<Candidate>, k: nat)
    requires k < |remaining|
    ensures SearchFrom(n, used, selected, remaining, k + 1).Some? ==> SearchFrom(n, used, selected, remaining, k).Some?
  {
  }

  /** At a member of the cover, the search takes it and completes the rest of the cover. */
  lemma {:induction false} TakeCoverMember(dice: seq<int>, target: int, used: set<int>, selected: seq<seq<int>>, remaining: seq<Candidate>, cover: seq<Candidate>, kw: nat, jw: nat)
    requires kw < |remaining| && jw < |cover| && remaining[kw] == cover[jw]
    requires CoverLeft(|dice|, used, remaining, cover)
    ensures SearchFrom(|dice|, used, selected, remaining, kw).Some?
    decreases |remaining|, 0, 0
  {
    var c := remaining[kw];
    var others := CoverRest(used, Indices(|dice|), remaining, cover, jw);
    assert used + c.indices <= Indices(|dice|);
    SearchComplete(dice, target, used + c.indices, selected + [c.values], RemoveFirst(remaining, c), others);
  }

  /** Once the search takes the `jw`-th candidate of a cover, the other candidates of the
      cover remain after it and cover what is left. */
  lemma {:induction false} CoverRest(used: set<int>, all: set<int>, remaining: seq<Candidate>, cover: seq<Candidate>, jw: nat)
    returns (others: seq<Candidate>)
    requires jw < |cover|
    requires forall j :: 0 <= j < |cover| ==> cover[j] in remaining && cover[j].indices != {}
    requires PairwiseDisjoint(IndexSets(cover)) && used !! Union(IndexSets(cover))
    requires used + Union(IndexSets(cover)) == all
    ensures cover[jw].indices !! used && used + cover[jw].indices <= all
    ensures forall j :: 0 <= j < |others| ==> others[j] in RemoveFirst(remaining, cover[jw]) && others[j].indices != {}
    ensures PairwiseDisjoint(IndexSets(others)) && (used + cover[jw].indices) !! Union(IndexSets(others))
    ensures used + cover[jw].indices + Union(IndexSets(others)) == all
  {
    others := cover[..jw] + cover[jw + 1..];
    DropFromCover(used, all, cover, jw);
    RemoveFirstMembers(remaining, cover[jw]);
    forall j | 0 <= j < |others|
      ensures others[j] in RemoveFirst(remaining, cover[jw]) && others[j].indices != {}
    {
      var g := if j < jw then j else j + 1;
      assert others[j] == cover[g];
    }
  }

  // ---------------------------------------------------------------------------
  // The whole search, and the score
  // ---------------------------------------------------------------------------

  /** Reading no index gives no faces. */
  lemma {:induction false} ValuesAtNone(dice: seq<int>, k: nat)
    requires k <= |dice|
    ensures ValuesAt(dice, {}, k) == []
  {
    if k > 0 {
      ValuesAtNone(dice, k - 1);
    }
  }

  lemma {:induction false} MulSucc(a: int, n: nat)
    ensures a * (n + 1) == a + a * n
  {
  }

  /** Over disjoint groups that each sum to the target, their union sums to the target
      times their number. */
  lemma {:induction false} UnionSum(dice: seq<int>, target: int, gs: seq<set<int>>)
    requires PairwiseDisjoint(gs)
    requires forall j :: 0 <= j < |gs| ==> SetSum(dice, gs[j]) == target
    ensures SetSum(dice, Union(gs)) == target * |gs|
  {
    if gs == [] {
      ValuesAtNone(dice, |dice|);
    } else {
      var tail := gs[1..];
      assert gs[..0] + gs[1..] == tail;
      DisjointDrop(gs, 0);
      forall j | 0 <= j < |tail| ensures SetSum(dice, tail[j]) == target {
        assert tail[j] == gs[j + 1];
      }
      UnionSum(dice, target, tail);
      assert Union(gs) == gs[0] + Union(tail);
      SumAtUnion(dice, gs[0], Union(tail), |dice|);
      MulSucc(target, |tail|);
    }
  }

  /** Soundness of `findExactCoverSubsets`: for a non-zero target, the groups it returns
      are the faces of an exact cover of the dice, read in index order; so their
      flattened sum is the sum of all the dice, the target times the number of groups. */
  lemma {:induction false} ExactCoverSound(dice: seq<int>, target: int) returns (groups: seq<set<int>>)
    requires target != 0
    requires ExactCover(dice, target).Some?
    ensures IsExactCover(dice, target, groups)
    ensures var found := ExactCover(dice, target).value;
      && |found| == |groups|
      && (forall j :: 0 <= j < |groups| ==> found[j] == ValuesAt(dice, groups[j], |dice|))
      && Sum(Flatten(found)) == Sum(dice) == target * |groups|
  {
    var candidates := Gen(dice, target, 0, [], {}, 0);
    ValuesAtNone(dice, 0);
    GenSound(dice, target, 0, [], {}, 0);
    var chosen := SearchSound(dice, target, {}, [], candidates);
    groups := IndexSets(chosen);
    var found := ExactCover(dice, target).value;
    assert found == ValuesOf(chosen);
    forall j | 0 <= j < |groups|
      ensures groups[j] != {} && groups[j] <= Indices(|dice|) && SetSum(dice, groups[j]) == target
    {
      assert ValidCandidate(dice, target, chosen[j]);
      if groups[j] == {} {
        ValuesAtNone(dice, |dice|);
        assert false;
      }
    }
    assert Union(groups) == Indices(|dice|);
    SumFlatten(found, target);
    UnionSum(dice, target, groups);
    SetSumAll(dice);
  }

  /** Completeness of `findExactCoverSubsets`: with faces of at least 1, whenever an exact
      cover exists the search finds one. */
  lemma {:induction false} ExactCoverComplete(dice: seq<int>, target: int)
    requires AllPositive(dice)
    requires CoverExists(dice, target)
    ensures ExactCover(dice, target).Some?
  {
    var groups :| IsExactCover(dice, target, groups);
    var candidates := Gen(dice, target, 0, [], {}, 0);
    var cover := seq(|groups|, j requires 0 <= j < |groups| => Candidate(ValuesAt(dice, groups[j], |dice|), groups[j]));
    ValuesAtNone(dice, 0);
    forall j | 0 <= j < |cover| ensures cover[j] in candidates && cover[j].indices != {} {
      GenComplete(dice, target, 0, [], {}, 0, groups[j]);
    }
    assert IndexSets(cover) == groups;
    SearchComplete(dice, target, {}, [], candidates, cover);
  }

  /** An exact cover exists exactly when the search finds one (faces of at least 1 and a
      non-zero target). */
  lemma {:induction false} ExactCoverIff(dice: seq<int>, target: int)
    requires AllPositive(dice) && target != 0
    ensures ExactCover(dice, target).Some? <==> CoverExists(dice, target)
  {
    if ExactCover(dice, target).Some? {
      var groups := ExactCoverSound(dice, target);
    }
    if CoverExists(dice, target) {
      ExactCoverComplete(dice, target);
    }
  }

  /** `LOW` accepts a non-empty selection exactly when no face is above 3, scoring the
      sum; a rejection reports `InvalidForLow`, and no selection is always rejected. */
  lemma {:induction false} LowScoreIff(dice: seq<int>)
    ensures dice == [] ==> Score(Low, dice) == Failure(NoDiceSelected)
    ensures dice != [] ==> (Score(Low, dice).Success? <==> forall i :: 0 <= i < |dice| ==> dice[i] <= 3)
    ensures dice != [] && Score(Low, dice).Success? ==> Score(Low, dice).value == Sum(dice)
    ensures dice != [] && Score(Low, dice).Failure? ==> Score(Low, dice).error == InvalidForLow
  {
  }

  /** An empty selection fails with `NoDiceSelected` in every category. */
  lemma {:induction false} EmptySelectionFails()
    ensures forall o :: Score(o, []) == Failure(NoDiceSelected)
  {
  }

  /** With faces in 1..3, a `LOW` score lies between the number of dice and three times
      that number. */
  lemma {:induction false} LowScoreBounds(dice: seq<int>)
    requires forall i :: 0 <= i < |dice| ==> 1 <= dice[i] <= 3
    ensures |dice| <= Sum(dice) <= 3 * |dice|
  {
    if dice != [] {
      LowScoreBounds(dice[..|dice| - 1]);
    }
  }

  /** A numeric category's successful score: the selection was not empty, an exact cover
      by groups summing to the category's number exists, and the score is the sum of all
      the dice, a positive multiple of that number. */
  lemma {:induction false} NumericScoreSound(o: ScoreOption, dice: seq<int>) returns (groups: seq<set<int>>)
    requires o != Low
    requires Score(o, dice).Success?
    ensures dice != [] && IsExactCover(dice, Target(o), groups) && |groups| >= 1
    ensures Score(o, dice).value == Sum(dice) == Target(o) * |groups|
  {
    var target := Target(o);
    assert ExactCover(dice, target).Some?;
    groups := ExactCoverSound(dice, target);
    assert 0 in Union(groups);
  }

  /** With faces of at least 1, a numeric category accepts a non-empty selection exactly
      when an exact cover by groups summing to its number exists, scoring the sum of all
      the dice; otherwise it reports that number as having no valid grouping. */
  lemma {:induction false} NumericScoreIff(o: ScoreOption, dice: seq<int>)
    requires o != Low && dice != [] && AllPositive(dice)
    ensures Score(o, dice).Success? <==> CoverExists(dice, Target(o))
    ensures Score(o, dice).Success? ==> Score(o, dice).value == Sum(dice)
    ensures Score(o, dice).Failure? ==> Score(o, dice).error == NoValidGrouping(Target(o))
  {
    ExactCoverIff(dice, Target(o));
    if Score(o, dice).Success? {
      var groups := NumericScoreSound(o, dice);
    }
  }

  /** The faces of [1,2,3,6] at indices {0,1,2} are 1, 2 and 3, which sum to 6. */
  lemma {:induction false} SixFirstGroup(six: seq<int>, first: set<int>)
    requires six == [1, 2, 3, 6] && first == {0, 1, 2}
    ensures ValuesAt(six, first, 4) == [1, 2, 3] && SetSum(six, first) == 6
  {
    assert ValuesAt(six, first, 1) == [1];
    assert ValuesAt(six, first, 2) == [1, 2];
    assert ValuesAt(six, first, 3) == [1, 2, 3];
    assert [1, 2, 3][..2] == [1, 2] && [1, 2][..1] == [1] && [1][..0] == [];
  }

  /** The face of [1,2,3,6] at index 3 is 6. */
  lemma {:induction false} SixSecondGroup(six: seq<int>, second: set<int>)
    requires six == [1, 2, 3, 6] && second == {3}
    ensures ValuesAt(six, second, 4) == [6] && SetSum(six, second) == 6
  {
    ValuesAtBeyond(six, second, 0, 3);
    assert ValuesAt(six, second, 0) == [];
    assert [6][..0] == [];
  }

  /** The groups {0,1,2} and {3} cover the four indices of [1,2,3,6] without overlap. */
  lemma {:induction false} SixPartition(first: set<int>, second: set<int>)
    requires first == {0, 1, 2} && second == {3}
    ensures Union([first, second]) == Indices(4) && PairwiseDisjoint([first, second])
  {
    assert Indices(4) == {0, 1, 2, 3};
    assert [first, second][1..] == [second] && [second][1..] == [];
    assert Union([second]) == second + Union([]);
    assert Union([first, second]) == first + Union([second]);
  }

  /** The dice [1,2,3,6] split into the groups at indices {0,1,2} and {3}, each summing
      to 6. */
  lemma {:induction false} SixCover(six: seq<int>, first: set<int>, second: set<int>)
    requires six == [1, 2, 3, 6] && first == {0, 1, 2} && second == {3}
    ensures IsExactCover(six, 6, [first, second])
  {
    SixFirstGroup(six, first);
    SixSecondGroup(six, second);
    SixPartition(first, second);
  }

  /** [1,2,3,6] sums to 12. */
  lemma {:induction false} SixSum(six: seq<int>)
    requires six == [1, 2, 3, 6]
    ensures Sum(six) == 12
  {
    assert six[..3] == [1, 2, 3] && [1, 2, 3][..2] == [1, 2] && [1, 2][..1] == [1] && [1][..0] == [];
  }

  /** `SIX` on [1,2,3,6] scores 12. */
  lemma {:induction false} SixExample(six: seq<int>)
    requires six == [1, 2, 3, 6]
    ensures Score(Six, six) == Success(12)
  {
    var groups := [{0, 1, 2}, {3}];
    SixCover(six, groups[0], groups[1]);
    assert Target(Six) == 6;
    assert IsExactCover(six, Target(Six), groups);
    assert AllPositive(six);
    NumericScoreIff(Six, six);
    SixSum(six);
  }

  /** `NINE` rejects [1,2,3,4]: the sum 10 is no multiple of 9. */
  lemma {:induction false} NineExample(nine: seq<int>)
    requires nine == [1, 2, 3, 4]
    ensures Score(Nine, nine) == Failure(NoValidGrouping(9))
  {
    NineSum(nine);
    assert Target(Nine) == 9;
    if Score(Nine, nine).Success? {
      var g := NumericScoreSound(Nine, nine);
      TenNotMultipleOfNine(|g|);
    }
  }

  lemma {:induction false} TenNotMultipleOfNine(n: nat)
    ensures 9 * n != 10
  {
  }

  /** [1,2,3,4] sums to 10. */
  lemma {:induction false} NineSum(nine: seq<int>)
    requires nine == [1, 2, 3, 4]
    ensures Sum(nine) == 10
  {
    assert nine[..3] == [1, 2, 3] && [1, 2, 3][..2] == [1, 2] && [1, 2][..1] == [1] && [1][..0] == [];
  }

  /** `LOW` on [1,2,3] scores 6 and rejects [1,4]. */
  lemma {:induction false} LowExamples()
    ensures Score(Low, [1, 2, 3]) == Success(6)
    ensures Score(Low, [1, 4]) == Failure(InvalidForLow)
  {
    assert [1, 4][1] > 3;
    assert [1, 2, 3][..2] == [1, 2] && [1, 2][..1] == [1] && [1][..0] == [];
  }
}
