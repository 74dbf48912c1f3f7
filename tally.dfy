/** pandas' boolean-mask selection and the sums a group-by computes, over
    rows kept as sequences: `df[mask]`, `df[mask][col].sum()`, and the
    regrouping of a sum by the values of one column. */
module Tally {
  import opened PySeq

  /** `df[mask]`: the rows satisfying `p`, in their original order. */
  function Filter<T>(s: seq<T>, p: T -> bool): seq<T> {
    if s == [] then []
    else
      var r := Filter(s[..|s| - 1], p);
      if p(s[|s| - 1]) then r + [s[|s| - 1]] else r
  }

  lemma {:induction false} FilterLength<T>(s: seq<T>, p: T -> bool)
    ensures |Filter(s, p)| == CountIf(s, p)
  {
    if s != [] {
      FilterLength(s[..|s| - 1], p);
    }
  }

  lemma {:induction false} FilterSound<T>(s: seq<T>, p: T -> bool)
    ensures forall x :: x in Filter(s, p) ==> p(x) && x in s
  {
    if s != [] {
      var n := |s| - 1;
      FilterSound(s[..n], p);
      assert forall x :: x in s[..n] ==> x in s;
    }
  }

  lemma {:induction false} FilterComplete<T>(s: seq<T>, p: T -> bool)
    ensures forall j :: 0 <= j < |s| && p(s[j]) ==> s[j] in Filter(s, p)
  {
    if s != [] {
      var n := |s| - 1;
      FilterComplete(s[..n], p);
      assert forall j :: 0 <= j < n ==> s[..n][j] == s[j];
    }
  }

  /** The selection holds as many rows as satisfy the mask, only such rows,
      and every such row. */
  lemma FilterMeaning<T>(s: seq<T>, p: T -> bool)
    ensures |Filter(s, p)| == CountIf(s, p)
    ensures forall x :: x in Filter(s, p) ==> p(x) && x in s
    ensures forall j :: 0 <= j < |s| && p(s[j]) ==> s[j] in Filter(s, p)
  {
    FilterLength(s, p);
    FilterSound(s, p);
    FilterComplete(s, p);
  }

  /** The mask `p & q`. */
  function Both<T>(p: T -> bool, q: T -> bool): T -> bool {
    x => p(x) && q(x)
  }

  /** Counting `q` within the selection of `p` counts the rows satisfying both. */
  lemma {:induction false} CountIfFilter<T>(s: seq<T>, p: T -> bool, q: T -> bool)
    ensures CountIf(Filter(s, p), q) == CountIf(s, Both(p, q))
  {
    if s != [] {
      var n := |s| - 1;
      CountIfFilter(s[..n], p, q);
      var r := Filter(s[..n], p);
      if p(s[n]) {
        assert (r + [s[n]])[..|r|] == r;
      }
    }
  }

  /** The sum of `f` over a sequence. */
  function Total<T>(s: seq<T>, f: T -> int): int {
    if s == [] then 0 else Total(s[..|s| - 1], f) + f(s[|s| - 1])
  }

  /** The sum of `f` over the elements satisfying `p`. */
  function SumWhere<T>(s: seq<T>, p: T -> bool, f: T -> int): int {
    if s == [] then 0
    else SumWhere(s[..|s| - 1], p, f) + (if p(s[|s| - 1]) then f(s[|s| - 1]) else 0)
  }

  /** Summing over the selected rows is summing over the rows that satisfy the mask. */
  lemma {:induction false} TotalFilter<T>(s: seq<T>, p: T -> bool, f: T -> int)
    ensures Total(Filter(s, p), f) == SumWhere(s, p, f)
  {
    if s != [] {
      var n := |s| - 1;
      TotalFilter(s[..n], p, f);
      var r := Filter(s[..n], p);
      if p(s[n]) {
        assert (r + [s[n]])[..|r|] == r;
      }
    }
  }

  /** Two masks that agree on every element select the same sum. */
  lemma {:induction false} SumWhereExt<T>(s: seq<T>, p: T -> bool, q: T -> bool, f: T -> int)
    requires forall i :: 0 <= i < |s| ==> p(s[i]) == q(s[i])
    ensures SumWhere(s, p, f) == SumWhere(s, q, f)
  {
    if s != [] {
      var n := |s| - 1;
      assert forall i :: 0 <= i < n ==> s[..n][i] == s[i];
      SumWhereExt(s[..n], p, q, f);
    }
  }

  /** When the mask selects exactly one row (`.item()`), its sum is that row's value. */
  lemma SumWhereOne<T>(s: seq<T>, p: T -> bool, f: T -> int)
    requires CountIf(s, p) == 1
    ensures |Filter(s, p)| == 1 && SumWhere(s, p, f) == f(Filter(s, p)[0])
  {
    var r := Filter(s, p);
    FilterMeaning(s, p);
    TotalFilter(s, p, f);
    assert r[..0] == [];
  }

  /** The mask `p & (key == k)`. */
  function Match<T>(p: T -> bool, key: T -> int, k: int): T -> bool {
    x => p(x) && key(x) == k
  }

  /** The mask `p & key.isin(ks)`. */
  function Among<T>(p: T -> bool, key: T -> int, ks: seq<int>): T -> bool {
    x => p(x) && key(x) in ks
  }

  /** The sum of `f` group by group: for each value `k` of `ks` in turn, the
      rows with mask `p` whose `key` is `k`. */
  function GroupedSum<T>(s: seq<T>, p: T -> bool, key: T -> int, ks: seq<int>, f: T -> int): int {
    if ks == [] then 0
    else GroupedSum(s, p, key, ks[..|ks| - 1], f) + SumWhere(s, Match(p, key, ks[|ks| - 1]), f)
  }

  /** One more, new, group value adds exactly that group's sum. */
  lemma {:induction false} SumWhereAmongStep<T>(s: seq<T>, p: T -> bool, key: T -> int, ks: seq<int>, k: int, f: T -> int)
    requires k !in ks
    ensures SumWhere(s, Among(p, key, ks + [k]), f) == SumWhere(s, Among(p, key, ks), f) + SumWhere(s, Match(p, key, k), f)
  {
    if s != [] {
      SumWhereAmongStep(s[..|s| - 1], p, key, ks, k, f);
    }
  }

  /** Summing group by group over distinct group values is summing over
      every row whose value is among them. */
  lemma {:induction false} GroupedSumMeaning<T>(s: seq<T>, p: T -> bool, key: T -> int, ks: seq<int>, f: T -> int)
    requires Distinct(ks)
    ensures GroupedSum(s, p, key, ks, f) == SumWhere(s, Among(p, key, ks), f)
  {
    if ks == [] {
      ZeroWhere(s, Among(p, key, ks), f);
    } else {
      var n := |ks| - 1;
      GroupedSumMeaning(s, p, key, ks[..n], f);
      assert ks[..n] + [ks[n]] == ks;
      SumWhereAmongStep(s, p, key, ks[..n], ks[n], f);
    }
  }

  lemma {:induction false} ZeroWhere<T>(s: seq<T>, p: T -> bool, f: T -> int)
    requires forall i :: 0 <= i < |s| ==> !p(s[i])
    ensures SumWhere(s, p, f) == 0
  {
    if s != [] {
      var n := |s| - 1;
      assert forall i :: 0 <= i < n ==> s[..n][i] == s[i];
      ZeroWhere(s[..n], p, f);
    }
  }

  /** When the group values cover every selected row, the groups together
      sum to the whole selection. */
  lemma GroupedSumCovered<T>(s: seq<T>, p: T -> bool, key: T -> int, ks: seq<int>, f: T -> int)
    requires Distinct(ks)
    requires forall i :: 0 <= i < |s| && p(s[i]) ==> key(s[i]) in ks
    ensures GroupedSum(s, p, key, ks, f) == SumWhere(s, p, f)
  {
    GroupedSumMeaning(s, p, key, ks, f);
    SumWhereExt(s, Among(p, key, ks), p, f);
  }
}
