/** Python's `dict` (and `defaultdict`): a finite map that remembers the
    order in which keys were first inserted. Re-assigning an existing key
    keeps its position; a new key goes to the end. */
module PyDict {
  import opened PySeq

  datatype ODict<K, V> = ODict(keys: seq<K>, vals: map<K, V>)

  predicate Valid<K(==), V>(d: ODict<K, V>) {
    && Distinct(d.keys)
    && (forall i :: 0 <= i < |d.keys| ==> d.keys[i] in d.vals)
    && (forall k | k in d.vals :: k in d.keys)
  }

  type Dict<K(==), V> = d: ODict<K, V> | Valid(d) witness ODict([], map[])

  function Empty<K(==), V>(): (d: Dict<K, V>)
    ensures d.keys == [] && d.vals == map[]
  {
    ODict([], map[])
  }

  /** `d[k] = v` */
  function Put<K(==), V>(d: Dict<K, V>, k: K, v: V): (r: Dict<K, V>)
    ensures r.vals == d.vals[k := v]
    ensures r.keys == if k in d.vals then d.keys else d.keys + [k]
  {
    if k in d.vals then ODict(d.keys, d.vals[k := v])
    else
      ODict(d.keys + [k], d.vals[k := v])
  }

  /** `d.get(k, dflt)`, also what reading a `defaultdict` yields for a missing key. */
  function GetOr<K(==), V>(d: Dict<K, V>, k: K, dflt: V): V {
    if k in d.vals then d.vals[k] else dflt
  }

  /** `d[k] += x` on a `defaultdict(int)`. */
  function AddInt<K(==)>(d: Dict<K, int>, k: K, x: int): (r: Dict<K, int>)
    ensures r.vals == d.vals[k := GetOr(d, k, 0) + x]
    ensures r.keys == if k in d.vals then d.keys else d.keys + [k]
  {
    Put(d, k, GetOr(d, k, 0) + x)
  }

  /** `d[k] += x` on a `defaultdict(int)` that receives float points. */
  function AddReal<K(==)>(d: Dict<K, real>, k: K, x: real): (r: Dict<K, real>)
    ensures r.vals == d.vals[k := GetOr(d, k, 0.0) + x]
    ensures r.keys == if k in d.vals then d.keys else d.keys + [k]
  {
    Put(d, k, GetOr(d, k, 0.0) + x)
  }

  /** `dict.fromkeys(ks, v)` */
  function FromKeys<K(==), V>(ks: seq<K>, v: V): (d: Dict<K, V>)
    requires Distinct(ks)
    ensures d.keys == ks
    ensures forall k :: k in d.vals ==> d.vals[k] == v
  {
    ODict(ks, map k | k in ks :: v)
  }

  /** Reading after `d[k] = v`: `k` holds `v`, every other key reads as before. */
  lemma PutRead<K, V>(d: Dict<K, V>, k: K, v: V, j: K, dflt: V)
    ensures j in Put(d, k, v).vals <==> j == k || j in d.vals
    ensures GetOr(Put(d, k, v), j, dflt) == if j == k then v else GetOr(d, j, dflt)
  {
  }

  /** Key order after `d[k] = v`: the old keys stay in place, and a new key
      is appended at the end. */
  lemma PutOrder<K, V>(d: Dict<K, V>, k: K, v: V)
    ensures |Put(d, k, v).keys| == |d.keys| + (if k in d.vals then 0 else 1)
    ensures Put(d, k, v).keys[..|d.keys|] == d.keys
    ensures k !in d.vals ==> Put(d, k, v).keys[|d.keys|] == k
  {
  }

  /** `d[k] += x` on a `defaultdict(int)` adds `x` at `k`, a missing key
      counting 0, leaves every other key's value alone and orders keys as
      `d[k] = v` does. */
  lemma AddIntRead<K>(d: Dict<K, int>, k: K, x: int, j: K)
    ensures j in AddInt(d, k, x).vals <==> j == k || j in d.vals
    ensures GetOr(AddInt(d, k, x), j, 0) == if j == k then GetOr(d, k, 0) + x else GetOr(d, j, 0)
    ensures |AddInt(d, k, x).keys| == |d.keys| + (if k in d.vals then 0 else 1)
    ensures AddInt(d, k, x).keys[..|d.keys|] == d.keys
    ensures k !in d.vals ==> AddInt(d, k, x).keys[|d.keys|] == k
  {
    PutRead(d, k, GetOr(d, k, 0) + x, j, 0);
    PutOrder(d, k, GetOr(d, k, 0) + x);
  }

  /** The same for a `defaultdict(int)` that receives float points. */
  lemma AddRealRead<K>(d: Dict<K, real>, k: K, x: real, j: K)
    ensures j in AddReal(d, k, x).vals <==> j == k || j in d.vals
    ensures GetOr(AddReal(d, k, x), j, 0.0) == if j == k then GetOr(d, k, 0.0) + x else GetOr(d, j, 0.0)
    ensures |AddReal(d, k, x).keys| == |d.keys| + (if k in d.vals then 0 else 1)
    ensures AddReal(d, k, x).keys[..|d.keys|] == d.keys
    ensures k !in d.vals ==> AddReal(d, k, x).keys[|d.keys|] == k
  {
    PutRead(d, k, GetOr(d, k, 0.0) + x, j, 0.0);
    PutOrder(d, k, GetOr(d, k, 0.0) + x);
  }

  /** `dict.fromkeys(ks, v)` holds exactly the keys of `ks`, each reading `v`. */
  lemma FromKeysMembers<K, V>(ks: seq<K>, v: V, k: K, dflt: V)
    requires Distinct(ks)
    ensures k in FromKeys(ks, v).vals <==> k in ks
    ensures GetOr(FromKeys(ks, v), k, dflt) == if k in ks then v else dflt
  {
  }

  /** The sum of `m`'s values at the keys `ks`, a missing key counting 0. */
  function SumAt<K(==)>(ks: seq<K>, m: map<K, int>): int {
    if ks == [] then 0
    else SumAt(ks[..|ks| - 1], m) + (if ks[|ks| - 1] in m then m[ks[|ks| - 1]] else 0)
  }

  /** `sum(d.values())` */
  function Sum<K(==)>(d: Dict<K, int>): int {
    SumAt(d.keys, d.vals)
  }

  lemma {:induction false} SumAtOutside<K>(ks: seq<K>, m: map<K, int>, k: K, v: int)
    requires k !in ks
    ensures SumAt(ks, m[k := v]) == SumAt(ks, m)
  {
    if ks != [] {
      SumAtOutside(ks[..|ks| - 1], m, k, v);
    }
  }

  lemma {:induction false} SumAtUpdate<K>(ks: seq<K>, m: map<K, int>, k: K, v: int)
    requires Distinct(ks) && k in ks && k in m
    ensures SumAt(ks, m[k := v]) == SumAt(ks, m) - m[k] + v
  {
    var n := |ks| - 1;
    assert Distinct(ks[..n]);
    if ks[n] == k {
      assert k !in ks[..n];
      SumAtOutside(ks[..n], m, k, v);
    } else {
      assert k in ks[..n];
      SumAtUpdate(ks[..n], m, k, v);
    }
  }

  /** Adding x to one entry adds x to the total. */
  lemma SumAddInt<K>(d: Dict<K, int>, k: K, x: int)
    ensures Sum(AddInt(d, k, x)) == Sum(d) + x
  {
    var r := AddInt(d, k, x);
    if k in d.vals {
      SumAtUpdate(d.keys, d.vals, k, GetOr(d, k, 0) + x);
    } else {
      SumAtOutside(d.keys, d.vals, k, x);
      assert r.keys[..|r.keys| - 1] == d.keys;
    }
  }

  lemma {:induction false} SumAtConstant<K>(ks: seq<K>, m: map<K, int>)
    requires forall k :: k in m ==> m[k] == 0
    ensures SumAt(ks, m) == 0
  {
    if ks != [] {
      SumAtConstant(ks[..|ks| - 1], m);
    }
  }
}
