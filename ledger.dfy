/** The score ledger that each of the three view models keeps: a map from category to
    score and the list of categories still open, with the first-write-wins registration,
    and the total of the recorded scores. */
module Ledger {
  import opened Lists

  /** The recorded scores and the categories still open. */
  datatype Book<K> = Book(scores: map<K, int>, remaining: seq<K>)

  /** The sum of the values of a map (`values.sum()`). */
  ghost function SumValues<K>(m: map<K, int>): int
    decreases |m.Keys|
  {
    if m == map[] then 0
    else
      var k :| k in m;
      m[k] + SumValues(m - {k})
  }

  /** The sum does not depend on which key is taken out first. */
  lemma {:induction false} SumValuesRemove<K>(m: map<K, int>, k: K)
    requires k in m
    ensures SumValues(m) == m[k] + SumValues(m - {k})
    decreases |m.Keys|
  {
    var j :| j in m && SumValues(m) == m[j] + SumValues(m - {j});
    if j != k {
      assert (m - {j}).Keys == m.Keys - {j};
      assert (m - {k}).Keys == m.Keys - {k};
      SumValuesRemove(m - {j}, k);
      SumValuesRemove(m - {k}, j);
      assert m - {j} - {k} == m - {k} - {j};
    }
  }

  /** Recording a new key adds its value to the total. */
  lemma {:induction false} SumValuesAdd<K>(m: map<K, int>, k: K, v: int)
    requires k !in m
    ensures SumValues(m[k := v]) == SumValues(m) + v
  {
    SumValuesRemove(m[k := v], k);
    assert m[k := v] - {k} == m;
  }

  /** `scoreMap.values.sum()`, adding the values one key at a time. */
  method TotalScore<K>(m: map<K, int>) returns (total: int)
    ensures total == SumValues(m)
  {
    total := 0;
    var rest := m;
    while rest != map[]
      invariant total + SumValues(rest) == SumValues(m)
      decreases |rest.Keys|
    {
      var k :| k in rest;
      SumValuesRemove(rest, k);
      total := total + rest[k];
      rest := rest - {k};
    }
  }

  /** `registerScore` of the two `ScoreOption` view models: a category not scored yet gets
      its score and leaves the open list (`MutableList.remove`, the first occurrence); a
      category already scored changes nothing. */
  function Register<K>(b: Book<K>, k: K, v: int): Book<K>
  {
    if k in b.scores then b else Book(b.scores[k := v], RemoveFirst(b.remaining, k))
  }

  /** `registerScore` of the string-keyed view model, where the category leaves the open
      list with every occurrence (`filter { it != category }`). */
  function RegisterFiltered<K>(b: Book<K>, k: K, v: int): Book<K>
  {
    if k in b.scores then b else Book(b.scores[k := v], Without(b.remaining, k))
  }

  /** No category appears twice in a list. */
  ghost predicate NoDuplicates<K>(s: seq<K>)
  {
    forall i, j :: 0 <= i < j < |s| ==> s[i] != s[j]
  }

  /** Every category of `all` is open or scored, and never both. */
  ghost predicate Accounted<K>(all: seq<K>, b: Book<K>)
  {
    forall k :: k in all ==> (k in b.remaining <==> k !in b.scores)
  }

  /** A scored category is no longer open. */
  ghost predicate ScoredNotOpen<K>(b: Book<K>)
  {
    forall k :: k in b.scores ==> k !in b.remaining
  }

  /** First write wins: once a category is scored, registering it again changes nothing;
      the total grows by the score exactly when the category was not scored yet. */
  lemma {:induction false} RegisterTotal<K>(b: Book<K>, k: K, v: int, w: int)
    ensures Register(Register(b, k, v), k, w) == Register(b, k, v)
    ensures SumValues(Register(b, k, v).scores) == SumValues(b.scores) + (if k in b.scores then 0 else v)
    ensures RegisterFiltered(RegisterFiltered(b, k, v), k, w) == RegisterFiltered(b, k, v)
    ensures SumValues(RegisterFiltered(b, k, v).scores) == SumValues(b.scores) + (if k in b.scores then 0 else v)
  {
    if k !in b.scores {
      SumValuesAdd(b.scores, k, v);
    }
  }

  /** Removing the first occurrence from a list without duplicates removes the item
      entirely and keeps the list free of duplicates. */
  lemma {:induction false} RemoveFirstNoDuplicates<K>(s: seq<K>, x: K)
    requires NoDuplicates(s)
    ensures NoDuplicates(RemoveFirst(s, x)) && x !in RemoveFirst(s, x)
  {
    if x in s {
      var i := FirstIndex(s, x);
      var r := RemoveFirst(s, x);
      assert forall j :: 0 <= j < i ==> r[j] == s[j];
      assert forall j :: i <= j < |r| ==> r[j] == s[j + 1];
    }
  }

  /** `registerScore` keeps every category open or scored, never both, as long as the open
      list has no duplicates, which it keeps too. */
  lemma {:induction false} RegisterKeepsAccounts<K>(all: seq<K>, b: Book<K>, k: K, v: int)
    requires Accounted(all, b) && NoDuplicates(b.remaining)
    ensures Accounted(all, Register(b, k, v)) && NoDuplicates(Register(b, k, v).remaining)
    ensures ScoredNotOpen(b) ==> ScoredNotOpen(Register(b, k, v))
  {
    if k !in b.scores {
      RemoveFirstMembers(b.remaining, k);
      RemoveFirstNoDuplicates(b.remaining, k);
    }
  }

  /** The string-keyed `registerScore` and `removeCategory` keep scored categories out of
      the open list. */
  lemma {:induction false} RegisterFilteredKeepsScoredOut<K>(b: Book<K>, k: K, v: int)
    requires ScoredNotOpen(b)
    ensures ScoredNotOpen(RegisterFiltered(b, k, v))
    ensures ScoredNotOpen(Book(b.scores, Without(b.remaining, k)))
  {
  }
}
