/** Python's list and string primitives that the program relies on:
    `None`-able values, pandas' `unique()`, list indexing with negative
    indices, and `sorted()` on strings (code-point lexicographic order). */
module PySeq {

  datatype Option<T> = None | Some(value: T)

  /** A value or the exception that was raised instead. */
  datatype Result<T, E> = Ok(value: T) | Err(error: E)

  /** Completion of a statement sequence, or the exception that stopped it. */
  datatype Outcome<E> = Pass | Fail(error: E)

  /** `sum(1 for x in s if f(x))` */
  function CountIf<T>(s: seq<T>, f: T -> bool): (n: nat)
    ensures n <= |s|
  {
    if s == [] then 0 else CountIf(s[..|s| - 1], f) + (if f(s[|s| - 1]) then 1 else 0)
  }

  /** Nothing is counted exactly when no element satisfies `f`. */
  lemma {:induction false} CountIfZero<T>(s: seq<T>, f: T -> bool)
    ensures CountIf(s, f) == 0 <==> forall i :: 0 <= i < |s| ==> !f(s[i])
  {
    if s != [] {
      var n := |s| - 1;
      CountIfZero(s[..n], f);
      assert forall i :: 0 <= i < n ==> s[..n][i] == s[i];
    }
  }

  lemma {:induction false} CountIfMonotone<T>(s: seq<T>, f: T -> bool, g: T -> bool)
    requires forall x :: f(x) ==> g(x)
    ensures CountIf(s, f) <= CountIf(s, g)
  {
    if s != [] {
      CountIfMonotone(s[..|s| - 1], f, g);
    }
  }

  lemma {:induction false} CountIfDisjoint<T>(s: seq<T>, f: T -> bool, g: T -> bool, h: T -> bool)
    requires forall x :: !(f(x) && g(x))
    requires forall x :: f(x) || g(x) ==> h(x)
    ensures CountIf(s, f) + CountIf(s, g) <= CountIf(s, h)
  {
    if s != [] {
      CountIfDisjoint(s[..|s| - 1], f, g, h);
    }
  }

  lemma {:induction false} CountIfAppend<T>(a: seq<T>, b: seq<T>, f: T -> bool)
    ensures CountIf(a + b, f) == CountIf(a, f) + CountIf(b, f)
    decreases |b|
  {
    if b != [] {
      var n := |b| - 1;
      assert (a + b)[..|a + b| - 1] == a + b[..n];
      CountIfAppend(a, b[..n], f);
    } else {
      assert a + b == a;
    }
  }

  /** No element occurs twice. */
  predicate Distinct<T(==)>(s: seq<T>) {
    forall i, j :: 0 <= i < j < |s| ==> s[i] != s[j]
  }

  /** pandas' `Series.unique()`: the distinct elements in order of first appearance. */
  function Unique<T(==)>(s: seq<T>): (r: seq<T>)
    ensures Distinct(r)
    ensures forall i :: 0 <= i < |s| ==> s[i] in r
    ensures forall i :: 0 <= i < |r| ==> r[i] in s
    ensures |r| <= |s|
  {
    if s == [] then []
    else
      var u := Unique(s[..|s| - 1]);
      if s[|s| - 1] in u then u else u + [s[|s| - 1]]
  }

  /** The position of the first occurrence of `x` in `s`. */
  function FirstIndex<T(==)>(s: seq<T>, x: T): (i: nat)
    requires x in s
    ensures i < |s| && s[i] == x
    ensures forall j :: 0 <= j < i ==> s[j] != x
  {
    var n := |s| - 1;
    if x in s[..n] then
      var k := FirstIndex(s[..n], x);
      assert forall j :: 0 <= j < k ==> s[j] == s[..n][j];
      k
    else
      assert forall j :: 0 <= j < n ==> s[j] == s[..n][j];
      n
  }

  /** `unique()` lists the values in order of first appearance. */
  lemma {:induction false} UniqueOrder<T>(s: seq<T>)
    ensures forall i, j :: 0 <= i < j < |Unique(s)| ==> FirstIndex(s, Unique(s)[i]) < FirstIndex(s, Unique(s)[j])
  {
    if s != [] {
      var n := |s| - 1;
      var u := Unique(s[..n]);
      UniqueOrder(s[..n]);
      forall i | 0 <= i < |u|
        ensures FirstIndex(s, u[i]) == FirstIndex(s[..n], u[i]) < n
      {
        assert u[i] in s[..n];
      }
      if s[n] !in u {
        assert s[n] !in s[..n] by {
          forall j | 0 <= j < n ensures s[..n][j] != s[n] {
            assert s[..n][j] in u;
          }
        }
        assert FirstIndex(s, s[n]) == n;
        assert Unique(s) == u + [s[n]];
      }
    }
  }

  /** The position of the last occurrence of `x` in `s`. */
  function LastIndex<T(==)>(s: seq<T>, x: T): (i: int)
    requires x in s
    ensures 0 <= i < |s| && s[i] == x
  {
    var n := |s| - 1;
    if s[n] == x then n
    else
      assert x in s[..n] by {
        var i :| 0 <= i < |s| && s[i] == x;
        assert s[..n][i] == x;
      }
      LastIndex(s[..n], x)
  }

  lemma {:induction false} LastIndexMeaning<T>(s: seq<T>, x: T)
    requires x in s
    ensures forall j :: LastIndex(s, x) < j < |s| ==> s[j] != x
  {
    var n := |s| - 1;
    if s[n] != x {
      LastIndexMeaning(s[..n], x);
      assert forall j :: LastIndex(s, x) < j < n ==> s[..n][j] == s[j];
    }
  }

  /** `xs[i]` is legal in Python for `-n <= i < n`. */
  predicate IndexOk(n: int, i: int) {
    -n <= i < n
  }

  /** The position Python's `xs[i]` reads. */
  function Position(n: int, i: int): (p: int)
    requires IndexOk(n, i)
    ensures 0 <= p < n
    ensures i >= 0 ==> p == i
    ensures i < 0 ==> p == n + i
  {
    if i < 0 then n + i else i
  }

  /** Python's `a <= b` on `str`: lexicographic on code points, a proper prefix is smaller. */
  predicate LexLe(a: string, b: string)
    decreases |a|
  {
    if a == [] then true
    else if b == [] then false
    else if a[0] != b[0] then a[0] < b[0]
    else LexLe(a[1..], b[1..])
  }

  lemma {:induction false} LexLeTotal(a: string, b: string)
    ensures LexLe(a, b) || LexLe(b, a)
    decreases |a|
  {
    if a != [] && b != [] && a[0] == b[0] {
      LexLeTotal(a[1..], b[1..]);
    }
  }

  lemma {:induction false} LexLeAntisymmetric(a: string, b: string)
    requires LexLe(a, b) && LexLe(b, a)
    ensures a == b
    decreases |a|
  {
    if a != [] {
      LexLeAntisymmetric(a[1..], b[1..]);
      assert a == [a[0]] + a[1..];
      assert b == [b[0]] + b[1..];
    }
  }

  lemma {:induction false} LexLeTransitive(a: string, b: string, c: string)
    requires LexLe(a, b) && LexLe(b, c)
    ensures LexLe(a, c)
    decreases |a|
  {
    if a != [] && b != [] && c != [] && a[0] == b[0] && b[0] == c[0] {
      LexLeTransitive(a[1..], b[1..], c[1..]);
    }
  }

  predicate Sorted(s: seq<string>) {
    forall i, j :: 0 <= i < j < |s| ==> LexLe(s[i], s[j])
  }

  function Insert(x: string, s: seq<string>): seq<string> {
    if s == [] then [x]
    else if LexLe(x, s[0]) then [x] + s
    else [s[0]] + Insert(x, s[1..])
  }

  lemma {:induction false} InsertMultiset(x: string, s: seq<string>)
    ensures multiset(Insert(x, s)) == multiset(s) + multiset{x}
  {
    if s != [] && !LexLe(x, s[0]) {
      InsertMultiset(x, s[1..]);
      assert s == [s[0]] + s[1..];
    }
  }

  lemma {:induction false} InsertBound(x: string, s: seq<string>, y: string)
    requires LexLe(y, x)
    requires forall k :: 0 <= k < |s| ==> LexLe(y, s[k])
    ensures forall k :: 0 <= k < |Insert(x, s)| ==> LexLe(y, Insert(x, s)[k])
  {
    if s != [] && !LexLe(x, s[0]) {
      InsertBound(x, s[1..], y);
      var t := Insert(x, s[1..]);
      assert Insert(x, s) == [s[0]] + t;
      forall k | 0 <= k < |Insert(x, s)| ensures LexLe(y, Insert(x, s)[k]) {
        if k > 0 {
          assert Insert(x, s)[k] == t[k - 1];
        }
      }
    }
  }

  lemma {:induction false} InsertSorted(x: string, s: seq<string>)
    requires Sorted(s)
    ensures Sorted(Insert(x, s))
  {
    if s == [] {
    } else if LexLe(x, s[0]) {
      var r := [x] + s;
      forall i, j | 0 <= i < j < |r| ensures LexLe(r[i], r[j]) {
        if i == 0 && j > 1 {
          LexLeTransitive(x, s[0], s[j - 1]);
        } else if i > 0 {
          assert r[i] == s[i - 1] && r[j] == s[j - 1];
        }
      }
    } else {
      LexLeTotal(x, s[0]);
      var tail := s[1..];
      assert Sorted(tail) by {
        forall i, j | 0 <= i < j < |tail| ensures LexLe(tail[i], tail[j]) {
          assert tail[i] == s[i + 1] && tail[j] == s[j + 1];
        }
      }
      InsertSorted(x, tail);
      assert forall k :: 0 <= k < |tail| ==> LexLe(s[0], tail[k]) by {
        forall k | 0 <= k < |tail| ensures LexLe(s[0], tail[k]) {
          assert tail[k] == s[k + 1];
        }
      }
      InsertBound(x, tail, s[0]);
      var t := Insert(x, tail);
      var r := [s[0]] + t;
      assert Insert(x, s) == r;
      forall i, j | 0 <= i < j < |r| ensures LexLe(r[i], r[j]) {
        if i > 0 {
          assert r[i] == t[i - 1] && r[j] == t[j - 1];
        } else {
          assert r[j] == t[j - 1];
        }
      }
    }
  }

  /** Python's `sorted()` on a list of strings (insertion sort; the result
      is unique, and ascending by `SortStringsSorted`). */
  function SortStrings(s: seq<string>): (r: seq<string>)
    ensures multiset(r) == multiset(s)
  {
    if s == [] then []
    else
      var t := SortStrings(s[1..]);
      InsertMultiset(s[0], t);
      assert s == [s[0]] + s[1..];
      Insert(s[0], t)
  }

  lemma {:induction false} SortStringsSorted(s: seq<string>)
    ensures Sorted(SortStrings(s))
  {
    if s != [] {
      SortStringsSorted(s[1..]);
      InsertSorted(s[0], SortStrings(s[1..]));
    }
  }

  lemma {:induction false} SortedDistinctAscending(s: seq<string>, i: int, j: int)
    requires Sorted(s) && Distinct(s)
    requires 0 <= i < j < |s|
    ensures LexLe(s[i], s[j]) && !LexLe(s[j], s[i])
  {
    if LexLe(s[j], s[i]) {
      LexLeAntisymmetric(s[i], s[j]);
    }
  }

  lemma {:induction false} DistinctAtMostOnce<T>(a: seq<T>, x: T)
    requires Distinct(a)
    ensures multiset(a)[x] <= 1
  {
    if a != [] {
      var n := |a| - 1;
      DistinctAtMostOnce(a[..n], x);
      assert a == a[..n] + [a[n]];
      if a[n] == x {
        assert x !in a[..n];
      }
    }
  }

  lemma {:induction false} DistinctByMultiset<T>(a: seq<T>, b: seq<T>)
    requires Distinct(a) && multiset(a) == multiset(b)
    ensures Distinct(b)
  {
    forall i, j | 0 <= i < j < |b| ensures b[i] != b[j] {
      if b[i] == b[j] {
        assert b == b[..i] + [b[i]] + b[i + 1..j] + [b[j]] + b[j + 1..];
        assert multiset(b)[b[i]] >= 2;
        DistinctAtMostOnce(a, b[i]);
        assert false;
      }
    }
  }

  /** Python's `sorted(df[col].unique())`: every distinct value once
      (ascending, by `SortedUniqueSorted`). */
  function SortedUnique(s: seq<string>): (r: seq<string>)
    ensures Distinct(r)
    ensures forall x :: x in r <==> x in s
  {
    var u := Unique(s);
    var r := SortStrings(u);
    DistinctByMultiset(u, r);
    assert forall x :: x in r <==> x in multiset(u);
    r
  }

  lemma SortedUniqueSorted(s: seq<string>)
    ensures Sorted(SortedUnique(s))
  {
    SortStringsSorted(Unique(s));
  }
}
