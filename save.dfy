/** What `Query.save_data` writes: the nested tables flattened into rows
    in insertion order, manager names rewritten by the alias map, and the
    trade list of every season that has weekly records. */
module Save {
  import opened PySeq
  import opened PyDict
  import opened PyStr
  import opened Records
  import opened Parse

  // ---- data.csv: one row per (season, week, manager) ----

  /** The rows of one week, manager by manager. */
  function ManagerRows(season: int, week: int, ks: seq<string>, m: map<string, WeekStats>): seq<DataRow> {
    if ks == [] then []
    else
      var k := ks[|ks| - 1];
      ManagerRows(season, week, ks[..|ks| - 1], m) + (if k in m then [DataRow(season, week, k, m[k])] else [])
  }

  /** The rows of one season, week by week. */
  function WeekRows(season: int, ks: seq<int>, m: map<int, WeekMap>): seq<DataRow> {
    if ks == [] then []
    else
      var k := ks[|ks| - 1];
      WeekRows(season, ks[..|ks| - 1], m) + (if k in m then ManagerRows(season, k, m[k].keys, m[k].vals) else [])
  }

  /** The rows of the seasons `ks`, season by season. */
  function SeasonRows(ks: seq<int>, m: map<int, SeasonMap>): seq<DataRow> {
    if ks == [] then []
    else
      var k := ks[|ks| - 1];
      SeasonRows(ks[..|ks| - 1], m) + (if k in m then WeekRows(k, m[k].keys, m[k].vals) else [])
  }

  /** The `records` list of lines 302-319. */
  function Flatten(rec: RecordMap): seq<DataRow> {
    SeasonRows(rec.keys, rec.vals)
  }

  /** Every row satisfies `p`. */
  predicate AllRows<T>(r: seq<T>, p: T -> bool) {
    forall i :: 0 <= i < |r| ==> p(r[i])
  }

  lemma AllRowsAppend<T>(a: seq<T>, b: seq<T>, p: T -> bool)
    requires AllRows(a, p) && AllRows(b, p)
    ensures AllRows(a + b, p)
  {
    forall i | 0 <= i < |a + b| ensures p((a + b)[i]) {
      if i < |a| {
        assert (a + b)[i] == a[i];
      } else {
        assert (a + b)[i] == b[i - |a|];
      }
    }
  }

  /** No two rows share a key. */
  predicate UniqueBy<T, K(==)>(r: seq<T>, key: T -> K) {
    forall i, j :: 0 <= i < j < |r| ==> key(r[i]) != key(r[j])
  }

  /** Rows with no key in common concatenate to rows with unique keys. */
  lemma UniqueAppend<T, K>(a: seq<T>, b: seq<T>, key: T -> K)
    requires UniqueBy(a, key) && UniqueBy(b, key)
    requires forall i, j :: 0 <= i < |a| && 0 <= j < |b| ==> key(a[i]) != key(b[j])
    ensures UniqueBy(a + b, key)
  {
    var r := a + b;
    forall i, j | 0 <= i < j < |r| ensures key(r[i]) != key(r[j]) {
      if i >= |a| {
        assert r[i] == b[i - |a|] && r[j] == b[j - |a|];
      } else if j >= |a| {
        assert r[i] == a[i] && r[j] == b[j - |a|];
      } else {
        assert r[i] == a[i] && r[j] == a[j];
      }
    }
  }

  /** The key of a data.csv row. */
  function Key(x: DataRow): (int, int, string) {
    (x.season, x.week, x.manager)
  }

  lemma DistinctPrefix<T>(s: seq<T>, n: nat)
    requires Distinct(s) && n <= |s|
    ensures Distinct(s[..n])
    ensures n < |s| ==> s[n] !in s[..n]
  {
  }

  lemma InPrefix<T>(s: seq<T>, n: nat, x: T)
    requires n <= |s| && x in s[..n]
    ensures x in s
  {
    var i :| 0 <= i < n && s[..n][i] == x;
    assert s[i] == x;
  }

  /** `x` is the row of a stored entry of the week table `m`. */
  predicate ManagerRowOk(season: int, week: int, m: map<string, WeekStats>, x: DataRow) {
    x.season == season && x.week == week && x.manager in m && x.stats == m[x.manager]
  }

  lemma {:induction false} ManagerRowsSound(season: int, week: int, ks: seq<string>, m: map<string, WeekStats>)
    ensures AllRows(ManagerRows(season, week, ks, m), (x: DataRow) => ManagerRowOk(season, week, m, x) && x.manager in ks)
  {
    if ks != [] {
      var n := |ks| - 1;
      ManagerRowsSound(season, week, ks[..n], m);
      var a := ManagerRows(season, week, ks[..n], m);
      var r := ManagerRows(season, week, ks, m);
      assert r == a + (if ks[n] in m then [DataRow(season, week, ks[n], m[ks[n]])] else []);
      forall i | 0 <= i < |r| ensures ManagerRowOk(season, week, m, r[i]) && r[i].manager in ks {
        if i < |a| {
          assert r[i] == a[i];
          InPrefix(ks, n, a[i].manager);
        } else {
          assert r[i] == DataRow(season, week, ks[n], m[ks[n]]);
        }
      }
    }
  }

  lemma {:induction false} ManagerRowsUnique(season: int, week: int, ks: seq<string>, m: map<string, WeekStats>)
    requires Distinct(ks)
    ensures UniqueBy(ManagerRows(season, week, ks, m), Key)
  {
    if ks != [] {
      var n := |ks| - 1;
      DistinctPrefix(ks, n);
      ManagerRowsUnique(season, week, ks[..n], m);
      ManagerRowsSound(season, week, ks[..n], m);
      var a := ManagerRows(season, week, ks[..n], m);
      var r := ManagerRows(season, week, ks, m);
      assert r == a + (if ks[n] in m then [DataRow(season, week, ks[n], m[ks[n]])] else []);
      forall i, j | 0 <= i < j < |r| ensures Key(r[i]) != Key(r[j]) {
        if j >= |a| {
          assert r[i] == a[i] && r[i].manager in ks[..n];
          assert r[j] == DataRow(season, week, ks[n], m[ks[n]]);
        } else {
          assert r[i] == a[i] && r[j] == a[j];
        }
      }
    }
  }

  lemma {:induction false} ManagerRowsComplete(season: int, week: int, ks: seq<string>, m: map<string, WeekStats>, k: string)
    requires k in ks && k in m
    ensures DataRow(season, week, k, m[k]) in ManagerRows(season, week, ks, m)
  {
    var n := |ks| - 1;
    if ks[n] != k {
      assert k in ks[..n] by {
        var i :| 0 <= i < |ks| && ks[i] == k;
        assert ks[..n][i] == k;
      }
      ManagerRowsComplete(season, week, ks[..n], m, k);
    }
  }

  /** `x` is the row of a stored entry of the season table `m`. */
  predicate WeekRowOk(season: int, m: map<int, WeekMap>, x: DataRow) {
    x.week in m && ManagerRowOk(season, x.week, m[x.week].vals, x)
  }

  lemma {:induction false} WeekRowsKeys(season: int, ks: seq<int>, m: map<int, WeekMap>)
    ensures AllRows(WeekRows(season, ks, m), (x: DataRow) => x.season == season && x.week in ks)
  {
    if ks != [] {
      var n := |ks| - 1;
      WeekRowsKeys(season, ks[..n], m);
      var a := WeekRows(season, ks[..n], m);
      var r := WeekRows(season, ks, m);
      var w := ks[n];
      var b := if w in m then ManagerRows(season, w, m[w].keys, m[w].vals) else [];
      assert r == a + b;
      if w in m {
        ManagerRowsSound(season, w, m[w].keys, m[w].vals);
      }
      forall i | 0 <= i < |r| ensures r[i].season == season && r[i].week in ks {
        if i < |a| {
          assert r[i] == a[i];
          InPrefix(ks, n, a[i].week);
        } else {
          assert r[i] == b[i - |a|];
        }
      }
    }
  }

  lemma {:induction false} WeekRowsSound(season: int, ks: seq<int>, m: map<int, WeekMap>)
    ensures AllRows(WeekRows(season, ks, m), (x: DataRow) => WeekRowOk(season, m, x))
  {
    if ks != [] {
      var n := |ks| - 1;
      WeekRowsSound(season, ks[..n], m);
      var a := WeekRows(season, ks[..n], m);
      var r := WeekRows(season, ks, m);
      var w := ks[n];
      if w in m {
        var b := ManagerRows(season, w, m[w].keys, m[w].vals);
        assert r == a + b;
        ManagerRowsSound(season, w, m[w].keys, m[w].vals);
        forall i | 0 <= i < |r| ensures WeekRowOk(season, m, r[i]) {
          if i < |a| {
            assert r[i] == a[i];
          } else {
            assert r[i] == b[i - |a|];
          }
        }
      } else {
        assert r == a;
      }
    }
  }

  lemma {:induction false} WeekRowsUnique(season: int, ks: seq<int>, m: map<int, WeekMap>)
    requires Distinct(ks)
    ensures UniqueBy(WeekRows(season, ks, m), Key)
  {
    if ks != [] {
      var n := |ks| - 1;
      DistinctPrefix(ks, n);
      WeekRowsUnique(season, ks[..n], m);
      WeekRowsKeys(season, ks[..n], m);
      var a := WeekRows(season, ks[..n], m);
      var r := WeekRows(season, ks, m);
      var w := ks[n];
      if w in m {
        var b := ManagerRows(season, w, m[w].keys, m[w].vals);
        assert r == a + b;
        ManagerRowsSound(season, w, m[w].keys, m[w].vals);
        ManagerRowsUnique(season, w, m[w].keys, m[w].vals);
        forall i, j | 0 <= i < |a| && 0 <= j < |b| ensures Key(a[i]) != Key(b[j]) {
          assert a[i].week in ks[..n];
        }
        UniqueAppend(a, b, Key);
      } else {
        assert r == a;
      }
    }
  }

  lemma {:induction false} WeekRowsComplete(season: int, ks: seq<int>, m: map<int, WeekMap>, w: int, k: string)
    requires w in ks && w in m && k in m[w].vals
    ensures DataRow(season, w, k, m[w].vals[k]) in WeekRows(season, ks, m)
  {
    var n := |ks| - 1;
    if ks[n] != w {
      assert w in ks[..n] by {
        var i :| 0 <= i < |ks| && ks[i] == w;
        assert ks[..n][i] == w;
      }
      WeekRowsComplete(season, ks[..n], m, w, k);
    } else {
      ManagerRowsComplete(season, w, m[w].keys, m[w].vals, k);
    }
  }

  /** `x` is the row of a stored entry of the weekly records `m`. */
  predicate SeasonRowOk(m: map<int, SeasonMap>, x: DataRow) {
    x.season in m && WeekRowOk(x.season, m[x.season].vals, x)
  }

  lemma {:induction false} SeasonRowsKeys(ks: seq<int>, m: map<int, SeasonMap>)
    ensures AllRows(SeasonRows(ks, m), (x: DataRow) => x.season in ks)
  {
    if ks != [] {
      var n := |ks| - 1;
      SeasonRowsKeys(ks[..n], m);
      var a := SeasonRows(ks[..n], m);
      var r := SeasonRows(ks, m);
      var s := ks[n];
      var b := if s in m then WeekRows(s, m[s].keys, m[s].vals) else [];
      assert r == a + b;
      if s in m {
        WeekRowsKeys(s, m[s].keys, m[s].vals);
      }
      forall i | 0 <= i < |r| ensures r[i].season in ks {
        if i < |a| {
          assert r[i] == a[i];
          InPrefix(ks, n, a[i].season);
        } else {
          assert r[i] == b[i - |a|];
        }
      }
    }
  }

  lemma {:induction false} SeasonRowsSound(ks: seq<int>, m: map<int, SeasonMap>)
    ensures AllRows(SeasonRows(ks, m), (x: DataRow) => SeasonRowOk(m, x))
  {
    if ks != [] {
      var n := |ks| - 1;
      SeasonRowsSound(ks[..n], m);
      var a := SeasonRows(ks[..n], m);
      var r := SeasonRows(ks, m);
      var s := ks[n];
      if s in m {
        var b := WeekRows(s, m[s].keys, m[s].vals);
        assert r == a + b;
        WeekRowsSound(s, m[s].keys, m[s].vals);
        WeekRowsKeys(s, m[s].keys, m[s].vals);
        assert AllRows(b, (x: DataRow) => SeasonRowOk(m, x)) by {
          forall i | 0 <= i < |b| ensures SeasonRowOk(m, b[i]) {
            assert b[i].season == s && WeekRowOk(s, m[s].vals, b[i]);
          }
        }
        AllRowsAppend(a, b, (x: DataRow) => SeasonRowOk(m, x));
      } else {
        assert r == a;
      }
    }
  }

  lemma {:induction false} SeasonRowsUnique(ks: seq<int>, m: map<int, SeasonMap>)
    requires Distinct(ks)
    ensures UniqueBy(SeasonRows(ks, m), Key)
  {
    if ks != [] {
      var n := |ks| - 1;
      DistinctPrefix(ks, n);
      SeasonRowsUnique(ks[..n], m);
      SeasonRowsKeys(ks[..n], m);
      var a := SeasonRows(ks[..n], m);
      var r := SeasonRows(ks, m);
      var s := ks[n];
      if s in m {
        var b := WeekRows(s, m[s].keys, m[s].vals);
        assert r == a + b;
        WeekRowsKeys(s, m[s].keys, m[s].vals);
        WeekRowsUnique(s, m[s].keys, m[s].vals);
        forall i, j | 0 <= i < |a| && 0 <= j < |b| ensures Key(a[i]) != Key(b[j]) {
          assert a[i].season in ks[..n];
        }
        UniqueAppend(a, b, Key);
      } else {
        assert r == a;
      }
    }
  }

  lemma {:induction false} SeasonRowsComplete(ks: seq<int>, m: map<int, SeasonMap>, s: int, w: int, k: string)
    requires s in ks && s in m && w in m[s].vals && k in m[s].vals[w].vals
    ensures DataRow(s, w, k, m[s].vals[w].vals[k]) in SeasonRows(ks, m)
  {
    var n := |ks| - 1;
    if ks[n] != s {
      assert s in ks[..n] by {
        var i :| 0 <= i < |ks| && ks[i] == s;
        assert ks[..n][i] == s;
      }
      SeasonRowsComplete(ks[..n], m, s, w, k);
    } else {
      WeekRowsComplete(s, m[s].keys, m[s].vals, w, k);
    }
  }

  /** Flattening emits a row exactly for each stored record, with that
      record's statistics, and exactly one row per (season, week, manager). */
  lemma FlattenMeaning(rec: RecordMap)
    ensures AllRows(Flatten(rec), (x: DataRow) => RecordOf(rec, x.season, x.week, x.manager) == Some(x.stats))
    ensures UniqueBy(Flatten(rec), Key)
    ensures forall s, w, k :: RecordOf(rec, s, w, k).Some? ==> DataRow(s, w, k, RecordOf(rec, s, w, k).value) in Flatten(rec)
  {
    SeasonRowsSound(rec.keys, rec.vals);
    SeasonRowsUnique(rec.keys, rec.vals);
    forall s, w, k | RecordOf(rec, s, w, k).Some?
      ensures DataRow(s, w, k, RecordOf(rec, s, w, k).value) in Flatten(rec)
    {
      SeasonRowsComplete(rec.keys, rec.vals, s, w, k);
    }
  }

  // ---- standings.csv: one row per (season, manager) ----

  function StandingsRowsOf(season: int, ks: seq<string>, m: map<string, StandingStats>): seq<StandingsRow> {
    if ks == [] then []
    else
      var k := ks[|ks| - 1];
      StandingsRowsOf(season, ks[..|ks| - 1], m) + (if k in m then [StandingsRow(season, k, m[k])] else [])
  }

  function StandingsSeasonRows(ks: seq<int>, m: map<int, Dict<string, StandingStats>>): seq<StandingsRow> {
    if ks == [] then []
    else
      var k := ks[|ks| - 1];
      StandingsSeasonRows(ks[..|ks| - 1], m) + (if k in m then StandingsRowsOf(k, m[k].keys, m[k].vals) else [])
  }

  /** The `records` list of lines 364-376. */
  function FlattenStandings(sm: StandingsMap): seq<StandingsRow> {
    StandingsSeasonRows(sm.keys, sm.vals)
  }

  /** The key of a standings.csv row. */
  function StandingsKey(x: StandingsRow): (int, string) {
    (x.season, x.manager)
  }

  predicate StandingsRowOk(season: int, m: map<string, StandingStats>, x: StandingsRow) {
    x.season == season && x.manager in m && x.stats == m[x.manager]
  }

  lemma {:induction false} StandingsRowsSound(season: int, ks: seq<string>, m: map<string, StandingStats>)
    ensures AllRows(StandingsRowsOf(season, ks, m), (x: StandingsRow) => StandingsRowOk(season, m, x) && x.manager in ks)
  {
    if ks != [] {
      var n := |ks| - 1;
      StandingsRowsSound(season, ks[..n], m);
      var a := StandingsRowsOf(season, ks[..n], m);
      var r := StandingsRowsOf(season, ks, m);
      assert r == a + (if ks[n] in m then [StandingsRow(season, ks[n], m[ks[n]])] else []);
      forall i | 0 <= i < |r| ensures StandingsRowOk(season, m, r[i]) && r[i].manager in ks {
        if i < |a| {
          assert r[i] == a[i];
          InPrefix(ks, n, a[i].manager);
        } else {
          assert r[i] == StandingsRow(season, ks[n], m[ks[n]]);
        }
      }
    }
  }

  lemma {:induction false} StandingsRowsUnique(season: int, ks: seq<string>, m: map<string, StandingStats>)
    requires Distinct(ks)
    ensures UniqueBy(StandingsRowsOf(season, ks, m), StandingsKey)
  {
    if ks != [] {
      var n := |ks| - 1;
      DistinctPrefix(ks, n);
      StandingsRowsUnique(season, ks[..n], m);
      StandingsRowsSound(season, ks[..n], m);
      var a := StandingsRowsOf(season, ks[..n], m);
      var r := StandingsRowsOf(season, ks, m);
      assert r == a + (if ks[n] in m then [StandingsRow(season, ks[n], m[ks[n]])] else []);
      forall i, j | 0 <= i < j < |r| ensures StandingsKey(r[i]) != StandingsKey(r[j]) {
        if j >= |a| {
          assert r[i] == a[i] && r[i].manager in ks[..n];
          assert r[j] == StandingsRow(season, ks[n], m[ks[n]]);
        } else {
          assert r[i] == a[i] && r[j] == a[j];
        }
      }
    }
  }

  lemma {:induction false} StandingsRowsComplete(season: int, ks: seq<string>, m: map<string, StandingStats>, k: string)
    requires k in ks && k in m
    ensures StandingsRow(season, k, m[k]) in StandingsRowsOf(season, ks, m)
  {
    var n := |ks| - 1;
    if ks[n] != k {
      assert k in ks[..n] by {
        var i :| 0 <= i < |ks| && ks[i] == k;
        assert ks[..n][i] == k;
      }
      StandingsRowsComplete(season, ks[..n], m, k);
    }
  }

  predicate StandingsSeasonRowOk(m: map<int, Dict<string, StandingStats>>, x: StandingsRow) {
    x.season in m && StandingsRowOk(x.season, m[x.season].vals, x)
  }

  lemma {:induction false} StandingsSeasonRowsSound(ks: seq<int>, m: map<int, Dict<string, StandingStats>>)
    ensures AllRows(StandingsSeasonRows(ks, m), (x: StandingsRow) => StandingsSeasonRowOk(m, x) && x.season in ks)
  {
    if ks != [] {
      var n := |ks| - 1;
      StandingsSeasonRowsSound(ks[..n], m);
      var a := StandingsSeasonRows(ks[..n], m);
      var r := StandingsSeasonRows(ks, m);
      if ks[n] in m {
        var s := ks[n];
        var b := StandingsRowsOf(s, m[s].keys, m[s].vals);
        assert r == a + b;
        StandingsRowsSound(s, m[s].keys, m[s].vals);
        forall i | 0 <= i < |r| ensures StandingsSeasonRowOk(m, r[i]) && r[i].season in ks {
          if i < |a| {
            assert r[i] == a[i];
            InPrefix(ks, n, a[i].season);
          } else {
            assert r[i] == b[i - |a|];
          }
        }
      } else {
        forall i | 0 <= i < |r| ensures StandingsSeasonRowOk(m, r[i]) && r[i].season in ks {
          assert r[i] == a[i];
          InPrefix(ks, n, a[i].season);
        }
      }
    }
  }

  lemma {:induction false} StandingsSeasonRowsUnique(ks: seq<int>, m: map<int, Dict<string, StandingStats>>)
    requires Distinct(ks)
    ensures UniqueBy(StandingsSeasonRows(ks, m), StandingsKey)
  {
    if ks != [] {
      var n := |ks| - 1;
      DistinctPrefix(ks, n);
      StandingsSeasonRowsUnique(ks[..n], m);
      StandingsSeasonRowsSound(ks[..n], m);
      var a := StandingsSeasonRows(ks[..n], m);
      var r := StandingsSeasonRows(ks, m);
      if ks[n] in m {
        var s := ks[n];
        var b := StandingsRowsOf(s, m[s].keys, m[s].vals);
        assert r == a + b;
        StandingsRowsSound(s, m[s].keys, m[s].vals);
        StandingsRowsUnique(s, m[s].keys, m[s].vals);
        forall i, j | 0 <= i < |a| && 0 <= j < |b| ensures StandingsKey(a[i]) != StandingsKey(b[j]) {
          assert a[i].season in ks[..n];
        }
        UniqueAppend(a, b, StandingsKey);
      }
    }
  }

  lemma {:induction false} StandingsSeasonRowsComplete(ks: seq<int>, m: map<int, Dict<string, StandingStats>>, s: int, k: string)
    requires s in ks && s in m && k in m[s].vals
    ensures StandingsRow(s, k, m[s].vals[k]) in StandingsSeasonRows(ks, m)
  {
    var n := |ks| - 1;
    if ks[n] != s {
      assert s in ks[..n] by {
        var i :| 0 <= i < |ks| && ks[i] == s;
        assert ks[..n][i] == s;
      }
      StandingsSeasonRowsComplete(ks[..n], m, s, k);
    } else {
      StandingsRowsComplete(s, m[s].keys, m[s].vals, k);
    }
  }

  /** Flattening the standings emits each manager's season statistics
      exactly once. */
  lemma FlattenStandingsMeaning(sm: StandingsMap)
    ensures AllRows(FlattenStandings(sm), (x: StandingsRow) => StandingsSeasonRowOk(sm.vals, x))
    ensures UniqueBy(FlattenStandings(sm), StandingsKey)
    ensures forall s, k :: s in sm.vals && k in sm.vals[s].vals ==>
      StandingsRow(s, k, sm.vals[s].vals[k]) in FlattenStandings(sm)
  {
    StandingsSeasonRowsSound(sm.keys, sm.vals);
    StandingsSeasonRowsUnique(sm.keys, sm.vals);
    forall s, k | s in sm.vals && k in sm.vals[s].vals
      ensures StandingsRow(s, k, sm.vals[s].vals[k]) in FlattenStandings(sm)
    {
      StandingsSeasonRowsComplete(sm.keys, sm.vals, s, k);
    }
  }

  // ---- aliases ----

  /** The alias map read from `manager_aliases.json`. */
  type Aliases = Dict<string, string>

  /** The replacements of lines 291-295 applied in map order to one name:
      each key is replaced, as literal text, everywhere it occurs in the
      result of the replacements before it. */
  function AliasName(name: string, ks: seq<string>, m: map<string, string>): string {
    if ks == [] then name
    else
      var r := AliasName(name, ks[..|ks| - 1], m);
      var k := ks[|ks| - 1];
      if k in m then ReplaceAll(r, k, m[k]) else r
  }

  function Alias(name: string, a: Aliases): string {
    AliasName(name, a.keys, a.vals)
  }

  /** A name that contains none of the (non-empty) alias keys is unchanged. */
  lemma {:induction false} AliasNameUnchanged(name: string, ks: seq<string>, m: map<string, string>)
    requires forall i :: 0 <= i < |ks| ==> ks[i] != [] && !Contains(name, ks[i])
    ensures AliasName(name, ks, m) == name
  {
    if ks != [] {
      var n := |ks| - 1;
      AliasNameUnchanged(name, ks[..n], m);
      if ks[n] in m {
        ReplaceAbsent(name, ks[n], m[ks[n]]);
      }
    }
  }

  /** With a single alias, a name equal to its key becomes the alias. */
  lemma AliasSingle(k: string, v: string)
    requires k != []
    ensures Alias(k, Put(Empty(), k, v)) == v
  {
    var a: Aliases := Put(Empty(), k, v);
    assert a.keys == [k] && a.vals == map[k := v];
    assert a.keys[..0] == [];
    assert AliasName(k, a.keys, a.vals) == ReplaceAll(AliasName(k, [], a.vals), k, v);
    ReplaceRepeated(k, v, 1);
    assert Repeat(k, 1) == k;
    assert Repeat(v, 1) == v;
  }

  /** A column after the replacements of the alias keys `ks`. */
  function AliasColumnBy(col: seq<string>, ks: seq<string>, m: map<string, string>): seq<string> {
    seq(|col|, i requires 0 <= i < |col| => AliasName(col[i], ks, m))
  }

  /** `col.str.replace(pat, rep)` with a literal pattern. */
  function ReplaceEach(col: seq<string>, pat: string, rep: string): seq<string> {
    seq(|col|, i requires 0 <= i < |col| => ReplaceAll(col[i], pat, rep))
  }

  /** One more alias pair rewrites the column once more. */
  lemma AliasColumnStep(col: seq<string>, ks: seq<string>, m: map<string, string>, j: nat)
    requires j < |ks| && ks[j] in m
    ensures AliasColumnBy(col, ks[..j + 1], m) == ReplaceEach(AliasColumnBy(col, ks[..j], m), ks[j], m[ks[j]])
  {
    assert ks[..j + 1][..j] == ks[..j];
  }

  /** `df['manager']` (and `df['opponent']`) after every replacement. */
  function AliasColumn(col: seq<string>, a: Aliases): seq<string> {
    AliasColumnBy(col, a.keys, a.vals)
  }

  function AliasDataRow(r: DataRow, a: Aliases): DataRow {
    r.(manager := Alias(r.manager, a), stats := r.stats.(opponent := Alias(r.stats.opponent, a)))
  }

  /** data.csv after `apply_manager_aliases`. */
  function AliasDataRows(rows: seq<DataRow>, a: Aliases): seq<DataRow> {
    seq(|rows|, i requires 0 <= i < |rows| => AliasDataRow(rows[i], a))
  }

  /** standings.csv after `apply_manager_aliases` (it has no opponent column). */
  function AliasStandingsRows(rows: seq<StandingsRow>, a: Aliases): seq<StandingsRow> {
    seq(|rows|, i requires 0 <= i < |rows| => rows[i].(manager := Alias(rows[i].manager, a)))
  }

  // The frames as columns, the form `apply_manager_aliases` rewrites.

  function ManagerColumn(rows: seq<DataRow>): seq<string> {
    seq(|rows|, i requires 0 <= i < |rows| => rows[i].manager)
  }

  function OpponentColumn(rows: seq<DataRow>): seq<string> {
    seq(|rows|, i requires 0 <= i < |rows| => rows[i].stats.opponent)
  }

  function WithColumns(rows: seq<DataRow>, managers: seq<string>, opponents: seq<string>): seq<DataRow>
    requires |managers| == |rows| && |opponents| == |rows|
  {
    seq(|rows|, i requires 0 <= i < |rows| =>
      rows[i].(manager := managers[i], stats := rows[i].stats.(opponent := opponents[i])))
  }

  function StandingsManagerColumn(rows: seq<StandingsRow>): seq<string> {
    seq(|rows|, i requires 0 <= i < |rows| => rows[i].manager)
  }

  function WithManagers(rows: seq<StandingsRow>, managers: seq<string>): seq<StandingsRow>
    requires |managers| == |rows|
  {
    seq(|rows|, i requires 0 <= i < |rows| => rows[i].(manager := managers[i]))
  }

  /** Rewriting the two columns of the frame is rewriting each row's names. */
  lemma AliasByColumns(rows: seq<DataRow>, a: Aliases)
    ensures WithColumns(rows, AliasColumn(ManagerColumn(rows), a), AliasColumn(OpponentColumn(rows), a))
      == AliasDataRows(rows, a)
  {
  }

  lemma AliasStandingsByColumn(rows: seq<StandingsRow>, a: Aliases)
    ensures WithManagers(rows, AliasColumn(StandingsManagerColumn(rows), a)) == AliasStandingsRows(rows, a)
  {
  }

  // ---- transactions.csv ----

  /** The alias of `name` when the alias map has one, else `name` itself. */
  function Lookup(a: Aliases, name: string): string {
    GetOr(a, name, name)
  }

  /** The rows of one season's trades (lines 340-358): the tuple's first
      name becomes the trader, the second the tradee. */
  function SeasonTradeRows(season: int, ts: seq<Trade>, a: Aliases): seq<TradeRow> {
    if ts == [] then []
    else
      var t := ts[|ts| - 1];
      SeasonTradeRows(season, ts[..|ts| - 1], a) + [TradeRow(season, Lookup(a, t.first), Lookup(a, t.second))]
  }

  /** The trade rows of the seasons `seasons`, which are the season keys
      of the weekly records (line 336), in that order. */
  function TradeRows(seasons: seq<int>, tm: TradeMap, a: Aliases): seq<TradeRow> {
    if seasons == [] then []
    else
      var s := seasons[|seasons| - 1];
      TradeRows(seasons[..|seasons| - 1], tm, a) + SeasonTradeRows(s, GetOr(tm, s, []), a)
  }

  /** One row per trade, in order, with the names looked up by exact key. */
  lemma {:induction false} SeasonTradeRowsMeaning(season: int, ts: seq<Trade>, a: Aliases)
    ensures |SeasonTradeRows(season, ts, a)| == |ts|
    ensures forall i :: 0 <= i < |ts| ==>
      SeasonTradeRows(season, ts, a)[i] == TradeRow(season, Lookup(a, ts[i].first), Lookup(a, ts[i].second))
  {
    if ts != [] {
      SeasonTradeRowsMeaning(season, ts[..|ts| - 1], a);
    }
  }

  /** A name with no alias entry is written as it is; one with an entry is
      replaced by exactly that alias (no substring matching). */
  lemma LookupMeaning(a: Aliases, name: string)
    ensures name !in a.vals ==> Lookup(a, name) == name
    ensures name in a.vals ==> Lookup(a, name) == a.vals[name]
  {
  }

  /** Trades are written only for seasons that have weekly records. */
  lemma {:induction false} TradeRowsSeasons(seasons: seq<int>, tm: TradeMap, a: Aliases)
    ensures forall i :: 0 <= i < |TradeRows(seasons, tm, a)| ==> TradeRows(seasons, tm, a)[i].season in seasons
  {
    if seasons != [] {
      var n := |seasons| - 1;
      TradeRowsSeasons(seasons[..n], tm, a);
      SeasonTradeRowsMeaning(seasons[n], GetOr(tm, seasons[n], []), a);
      assert seasons == seasons[..n] + [seasons[n]];
    }
  }

  /** The total number of trades of the seasons `seasons`. */
  function TradeCount(seasons: seq<int>, tm: TradeMap): nat {
    if seasons == [] then 0
    else TradeCount(seasons[..|seasons| - 1], tm) + |GetOr(tm, seasons[|seasons| - 1], [])|
  }

  lemma {:induction false} TradeRowsCount(seasons: seq<int>, tm: TradeMap, a: Aliases)
    ensures |TradeRows(seasons, tm, a)| == TradeCount(seasons, tm)
  {
    if seasons != [] {
      var n := |seasons| - 1;
      TradeRowsCount(seasons[..n], tm, a);
      SeasonTradeRowsMeaning(seasons[n], GetOr(tm, seasons[n], []), a);
    }
  }

  // ---- the three files ----

  /** What the run ends with, and the rows of each file it wrote. */
  datatype Saved = Saved(
    outcome: Outcome<Error>,
    data: Option<seq<DataRow>>,
    trades: Option<seq<TradeRow>>,
    standings: Option<seq<StandingsRow>>)

  /** `apply_manager_aliases` on a frame with `rows` rows: the alias file is
      opened unconditionally (the `exists` guard is never called), and a
      frame built from no records has no `manager` column to look up. */
  function AliasOutcome(file: Option<Aliases>, rows: nat): Outcome<Error> {
    if file.None? then Fail(AliasFileMissing)
    else if rows == 0 && file.value.keys != [] then Fail(MissingManagerColumn)
    else Pass
  }

  /** `save_data` on the given tables, `file` being the content of
      `manager_aliases.json` (None when there is no such file). */
  function SaveSpec(t: Tables, file: Option<Aliases>): Saved {
    var data := Flatten(t.records);
    var o1 := AliasOutcome(file, |data|);
    if o1.Fail? then Saved(o1, None, None, None)
    else
      var a := file.value;
      var d := AliasDataRows(data, a);
      var tr := TradeRows(t.records.keys, t.transactions, a);
      var st := FlattenStandings(t.standings);
      var o2 := AliasOutcome(file, |st|);
      if o2.Fail? then Saved(o2, Some(d), Some(tr), None)
      else Saved(Pass, Some(d), Some(tr), Some(AliasStandingsRows(st, a)))
  }

  /** Without an alias file nothing is written; with one, data.csv and
      transactions.csv are written unless the weekly table is empty and
      there are aliases, and standings.csv as well unless the standings
      table is empty and there are aliases. */
  lemma SaveOutcome(t: Tables, file: Option<Aliases>)
    ensures file.None? ==> SaveSpec(t, file) == Saved(Fail(AliasFileMissing), None, None, None)
    ensures file.Some? && file.value.keys == [] ==> SaveSpec(t, file).outcome == Pass
    ensures SaveSpec(t, file).data.Some? <==> file.Some? && (file.value.keys == [] || Flatten(t.records) != [])
    ensures SaveSpec(t, file).trades.Some? <==> SaveSpec(t, file).data.Some?
    ensures SaveSpec(t, file).outcome == Pass <==> SaveSpec(t, file).standings.Some?
  {
  }

  // ---- the loops of save_data ----

  /** Lines 309-319: the rows of one week's table. */
  method FlattenWeek(season: int, week: int, mrm: WeekMap) returns (records: seq<DataRow>)
    ensures records == ManagerRows(season, week, mrm.keys, mrm.vals)
  {
    records := [];
    for k := 0 to |mrm.keys|
      invariant records == ManagerRows(season, week, mrm.keys[..k], mrm.vals)
    {
      var manager := mrm.keys[k];
      records := records + [DataRow(season, week, manager, mrm.vals[manager])];
      assert mrm.keys[..k + 1][..k] == mrm.keys[..k];
    }
    assert mrm.keys[..|mrm.keys|] == mrm.keys;
  }

  /** Lines 305-319: the rows of one season, week by week. */
  method FlattenSeason(season: int, sm: SeasonMap) returns (records: seq<DataRow>)
    ensures records == WeekRows(season, sm.keys, sm.vals)
  {
    records := [];
    for j := 0 to |sm.keys|
      invariant records == WeekRows(season, sm.keys[..j], sm.vals)
    {
      var week := sm.keys[j];
      var rows := FlattenWeek(season, week, sm.vals[week]);
      records := records + rows;
      assert sm.keys[..j + 1][..j] == sm.keys[..j];
    }
    assert sm.keys[..|sm.keys|] == sm.keys;
  }

  /** Lines 302-319: the weekly records, flattened. */
  method FlattenRecords(rec: RecordMap) returns (records: seq<DataRow>)
    ensures records == Flatten(rec)
  {
    records := [];
    for i := 0 to |rec.keys|
      invariant records == SeasonRows(rec.keys[..i], rec.vals)
    {
      var season := rec.keys[i];
      var rows := FlattenSeason(season, rec.vals[season]);
      records := records + rows;
      assert rec.keys[..i + 1][..i] == rec.keys[..i];
    }
    assert rec.keys[..|rec.keys|] == rec.keys;
  }

  /** The inner loop of lines 364-376 for one season's table. */
  method FlattenStandingsSeason(season: int, table: Dict<string, StandingStats>) returns (records: seq<StandingsRow>)
    ensures records == StandingsRowsOf(season, table.keys, table.vals)
  {
    records := [];
    for j := 0 to |table.keys|
      invariant records == StandingsRowsOf(season, table.keys[..j], table.vals)
    {
      var manager := table.keys[j];
      records := records + [StandingsRow(season, manager, table.vals[manager])];
      assert table.keys[..j + 1][..j] == table.keys[..j];
    }
    assert table.keys[..|table.keys|] == table.keys;
  }

  method FlattenStandingsTable(sm: StandingsMap) returns (records: seq<StandingsRow>)
    ensures records == FlattenStandings(sm)
  {
    records := [];
    for i := 0 to |sm.keys|
      invariant records == StandingsSeasonRows(sm.keys[..i], sm.vals)
    {
      var season := sm.keys[i];
      var rows := FlattenStandingsSeason(season, sm.vals[season]);
      records := records + rows;
      assert sm.keys[..i + 1][..i] == sm.keys[..i];
    }
    assert sm.keys[..|sm.keys|] == sm.keys;
  }

  /** Lines 335-358: the trades of every season with weekly records. */
  method CollectTrades(seasons: seq<int>, tm: TradeMap, aliases: Aliases) returns (records: seq<TradeRow>)
    ensures records == TradeRows(seasons, tm, aliases)
  {
    records := [];
    for i := 0 to |seasons|
      invariant records == TradeRows(seasons[..i], tm, aliases)
    {
      var season := seasons[i];
      var trades := GetOr(tm, season, []);
      ghost var before := records;
      for j := 0 to |trades|
        invariant records == before + SeasonTradeRows(season, trades[..j], aliases)
      {
        var trade := trades[j];
        var m0 := if trade.first in aliases.vals then aliases.vals[trade.first] else trade.first;
        var m1 := if trade.second in aliases.vals then aliases.vals[trade.second] else trade.second;
        records := records + [TradeRow(season, m0, m1)];
        assert trades[..j + 1][..j] == trades[..j];
      }
      assert trades[..|trades|] == trades;
      assert seasons[..i + 1][..i] == seasons[..i];
    }
    assert seasons[..|seasons|] == seasons;
  }
}
