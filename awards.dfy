/** `Awards`: the weekly best- and worst-scorer counters and each manager's
    "favorite" real-world team, both computed from the rows of data.csv
    (in file order). The `player_teams` column is taken as already parsed. */
module Awards {
  import opened PySeq
  import opened PyDict
  import opened Records
  import opened Tally
  import opened Save

  function SeasonColumn(rows: seq<DataRow>): seq<int> {
    seq(|rows|, i requires 0 <= i < |rows| => rows[i].season)
  }

  function WeekColumn(rows: seq<DataRow>): seq<int> {
    seq(|rows|, i requires 0 <= i < |rows| => rows[i].week)
  }

  function Season(x: DataRow): int {
    x.season
  }

  /** The mask `(df["season"] == s) & (df["week"] == w)`. */
  function AtSeasonWeek(s: int, w: int): DataRow -> bool {
    (x: DataRow) => x.season == s && x.week == w
  }

  /** The mask `df["manager"] == m`. */
  function HasManager(m: string): DataRow -> bool {
    (x: DataRow) => x.manager == m
  }

  // ---- award_best_scores ----

  /** `slice["max_player_score"].idxmax()`: the first row with the largest value. */
  function FirstMaxIndex(sl: seq<DataRow>): (i: nat)
    requires sl != []
    ensures i < |sl|
    ensures forall j :: 0 <= j < |sl| ==> sl[j].stats.maxPlayerScore <= sl[i].stats.maxPlayerScore
    ensures forall j :: 0 <= j < i ==> sl[j].stats.maxPlayerScore < sl[i].stats.maxPlayerScore
  {
    var n := |sl| - 1;
    if n == 0 then 0
    else
      var i := FirstMaxIndex(sl[..n]);
      assert forall j :: 0 <= j < n ==> sl[..n][j] == sl[j];
      if sl[n].stats.maxPlayerScore > sl[i].stats.maxPlayerScore then n else i
  }

  /** `slice["max_player_score"].idxmin()`: the first row with the smallest value. */
  function FirstMinIndex(sl: seq<DataRow>): (i: nat)
    requires sl != []
    ensures i < |sl|
    ensures forall j :: 0 <= j < |sl| ==> sl[i].stats.maxPlayerScore <= sl[j].stats.maxPlayerScore
    ensures forall j :: 0 <= j < i ==> sl[i].stats.maxPlayerScore < sl[j].stats.maxPlayerScore
  {
    var n := |sl| - 1;
    if n == 0 then 0
    else
      var i := FirstMinIndex(sl[..n]);
      assert forall j :: 0 <= j < n ==> sl[..n][j] == sl[j];
      if sl[n].stats.maxPlayerScore < sl[i].stats.maxPlayerScore then n else i
  }

  /** The two counters `max_scorer` and `min_scorer`. */
  datatype Scorers = Scorers(maxScorer: Dict<string, int>, minScorer: Dict<string, int>)

  /** One (season, week) slice: skipped when empty, otherwise one point to
      the manager of the best row for each counter. */
  function CreditSlice(c: Scorers, rows: seq<DataRow>, s: int, w: int): Scorers {
    var sl := Filter(rows, AtSeasonWeek(s, w));
    if sl == [] then c
    else Scorers(AddInt(c.maxScorer, sl[FirstMaxIndex(sl)].manager, 1),
                 AddInt(c.minScorer, sl[FirstMinIndex(sl)].manager, 1))
  }

  /** The inner `for week in weeks` loop. */
  function CreditWeeks(c: Scorers, rows: seq<DataRow>, s: int, ws: seq<int>): Scorers {
    if ws == [] then c else CreditSlice(CreditWeeks(c, rows, s, ws[..|ws| - 1]), rows, s, ws[|ws| - 1])
  }

  /** The outer `for season in seasons` loop. */
  function CreditSeasons(c: Scorers, rows: seq<DataRow>, ss: seq<int>, ws: seq<int>): Scorers {
    if ss == [] then c else CreditWeeks(CreditSeasons(c, rows, ss[..|ss| - 1], ws), rows, ss[|ss| - 1], ws)
  }

  /** Both counters start at 0 for every manager. */
  function InitialScorers(ms: seq<string>): (c: Scorers)
    requires Distinct(ms)
    ensures c.maxScorer.keys == ms && c.minScorer.keys == ms
    ensures forall m :: m in ms ==> c.maxScorer.vals[m] == 0 && c.minScorer.vals[m] == 0
  {
    Scorers(FromKeys(ms, 0), FromKeys(ms, 0))
  }

  /** What `award_best_scores` prints. */
  function BestScores(rows: seq<DataRow>): Scorers {
    CreditSeasons(InitialScorers(Unique(ManagerColumn(rows))), rows,
                  Unique(SeasonColumn(rows)), Unique(WeekColumn(rows)))
  }

  /** The (season, week) slice holds some row. */
  function HasSlice(rows: seq<DataRow>, s: int): int -> bool {
    w => Filter(rows, AtSeasonWeek(s, w)) != []
  }

  /** The number of non-empty slices among seasons `ss` and weeks `ws`. */
  function NonEmptySlices(rows: seq<DataRow>, ss: seq<int>, ws: seq<int>): nat {
    if ss == [] then 0 else NonEmptySlices(rows, ss[..|ss| - 1], ws) + CountIf(ws, HasSlice(rows, ss[|ss| - 1]))
  }

  /** Every credited manager is already a key, so crediting adds no key. */
  predicate Covers(c: Scorers, rows: seq<DataRow>) {
    forall i :: 0 <= i < |rows| ==> rows[i].manager in c.maxScorer.vals && rows[i].manager in c.minScorer.vals
  }

  lemma CreditSliceKeys(c: Scorers, rows: seq<DataRow>, s: int, w: int)
    requires Covers(c, rows)
    ensures var r := CreditSlice(c, rows, s, w);
      r.maxScorer.keys == c.maxScorer.keys && r.minScorer.keys == c.minScorer.keys && Covers(r, rows)
  {
    var sl := Filter(rows, AtSeasonWeek(s, w));
    if sl != [] {
      FilterMeaning(rows, AtSeasonWeek(s, w));
      var hi := sl[FirstMaxIndex(sl)];
      var lo := sl[FirstMinIndex(sl)];
      assert hi in rows && lo in rows;
      var i :| 0 <= i < |rows| && rows[i] == hi;
      var j :| 0 <= j < |rows| && rows[j] == lo;
    }
  }

  lemma {:induction false} CreditWeeksKeys(c: Scorers, rows: seq<DataRow>, s: int, ws: seq<int>)
    requires Covers(c, rows)
    ensures var r := CreditWeeks(c, rows, s, ws);
      r.maxScorer.keys == c.maxScorer.keys && r.minScorer.keys == c.minScorer.keys && Covers(r, rows)
  {
    if ws != [] {
      CreditWeeksKeys(c, rows, s, ws[..|ws| - 1]);
      CreditSliceKeys(CreditWeeks(c, rows, s, ws[..|ws| - 1]), rows, s, ws[|ws| - 1]);
    }
  }

  lemma {:induction false} CreditSeasonsKeys(c: Scorers, rows: seq<DataRow>, ss: seq<int>, ws: seq<int>)
    requires Covers(c, rows)
    ensures var r := CreditSeasons(c, rows, ss, ws);
      r.maxScorer.keys == c.maxScorer.keys && r.minScorer.keys == c.minScorer.keys && Covers(r, rows)
  {
    if ss != [] {
      CreditSeasonsKeys(c, rows, ss[..|ss| - 1], ws);
      CreditWeeksKeys(CreditSeasons(c, rows, ss[..|ss| - 1], ws), rows, ss[|ss| - 1], ws);
    }
  }

  /** Each non-empty slice adds exactly one point to each counter. */
  lemma {:induction false} CreditWeeksSum(c: Scorers, rows: seq<DataRow>, s: int, ws: seq<int>)
    ensures Sum(CreditWeeks(c, rows, s, ws).maxScorer) == Sum(c.maxScorer) + CountIf(ws, HasSlice(rows, s))
    ensures Sum(CreditWeeks(c, rows, s, ws).minScorer) == Sum(c.minScorer) + CountIf(ws, HasSlice(rows, s))
  {
    if ws != [] {
      var n := |ws| - 1;
      CreditWeeksSum(c, rows, s, ws[..n]);
      var p := CreditWeeks(c, rows, s, ws[..n]);
      var sl := Filter(rows, AtSeasonWeek(s, ws[n]));
      if sl != [] {
        SumAddInt(p.maxScorer, sl[FirstMaxIndex(sl)].manager, 1);
        SumAddInt(p.minScorer, sl[FirstMinIndex(sl)].manager, 1);
      }
    }
  }

  lemma {:induction false} CreditSeasonsSum(c: Scorers, rows: seq<DataRow>, ss: seq<int>, ws: seq<int>)
    ensures Sum(CreditSeasons(c, rows, ss, ws).maxScorer) == Sum(c.maxScorer) + NonEmptySlices(rows, ss, ws)
    ensures Sum(CreditSeasons(c, rows, ss, ws).minScorer) == Sum(c.minScorer) + NonEmptySlices(rows, ss, ws)
  {
    if ss != [] {
      var n := |ss| - 1;
      CreditSeasonsSum(c, rows, ss[..n], ws);
      CreditWeeksSum(CreditSeasons(c, rows, ss[..n], ws), rows, ss[n], ws);
    }
  }

  /** Both counters have exactly the managers as keys, and each totals the
      number of non-empty (season, week) slices. */
  lemma BestScoresMeaning(rows: seq<DataRow>)
    ensures var ms := Unique(ManagerColumn(rows));
      BestScores(rows).maxScorer.keys == ms && BestScores(rows).minScorer.keys == ms
    ensures var n := NonEmptySlices(rows, Unique(SeasonColumn(rows)), Unique(WeekColumn(rows)));
      Sum(BestScores(rows).maxScorer) == n && Sum(BestScores(rows).minScorer) == n
  {
    var ms := Unique(ManagerColumn(rows));
    var c := InitialScorers(ms);
    assert forall i :: 0 <= i < |rows| ==> ManagerColumn(rows)[i] == rows[i].manager;
    CreditSeasonsKeys(c, rows, Unique(SeasonColumn(rows)), Unique(WeekColumn(rows)));
    CreditSeasonsSum(c, rows, Unique(SeasonColumn(rows)), Unique(WeekColumn(rows)));
    SumAtConstant(ms, c.maxScorer.vals);
    SumAtConstant(ms, c.minScorer.vals);
  }

  /** The `for week in weeks` loop of one season. */
  method CreditSeason(c: Scorers, rows: seq<DataRow>, season: int, weeks: seq<int>) returns (r: Scorers)
    ensures r == CreditWeeks(c, rows, season, weeks)
  {
    r := c;
    for i := 0 to |weeks|
      invariant r == CreditWeeks(c, rows, season, weeks[..i])
    {
      assert weeks[..i + 1][..i] == weeks[..i];
      var slice := Filter(rows, AtSeasonWeek(season, weeks[i]));
      if slice == [] {
        continue;
      }
      var kMax := FirstMaxIndex(slice);
      var kMin := FirstMinIndex(slice);
      r := Scorers(AddInt(r.maxScorer, slice[kMax].manager, 1), AddInt(r.minScorer, slice[kMin].manager, 1));
    }
    assert weeks[..|weeks|] == weeks;
  }

  /** The `for season in seasons` loop. */
  method CreditAllSeasons(c: Scorers, rows: seq<DataRow>, seasons: seq<int>, weeks: seq<int>) returns (r: Scorers)
    ensures r == CreditSeasons(c, rows, seasons, weeks)
  {
    r := c;
    for i := 0 to |seasons|
      invariant r == CreditSeasons(c, rows, seasons[..i], weeks)
    {
      assert seasons[..i + 1][..i] == seasons[..i];
      r := CreditSeason(r, rows, seasons[i], weeks);
    }
    assert seasons[..|seasons|] == seasons;
  }

  /** `award_best_scores`: the two counters it prints. */
  method AwardBestScores(rows: seq<DataRow>) returns (maxScorer: Dict<string, int>, minScorer: Dict<string, int>)
    ensures Scorers(maxScorer, minScorer) == BestScores(rows)
  {
    var managers := Unique(ManagerColumn(rows));
    var c := CreditAllSeasons(InitialScorers(managers), rows, Unique(SeasonColumn(rows)), Unique(WeekColumn(rows)));
    maxScorer, minScorer := c.maxScorer, c.minScorer;
  }

  // ---- award_favorite_team ----

  /** The exception a manager with no team entries raises. */
  datatype AwardError = NoPlayerTeams(manager: string)

  /** A row's `player_teams[k]`, 0 when the team is absent. */
  function TeamCount(k: string): DataRow -> int {
    (x: DataRow) => GetOr(x.stats.playerTeams, k, 0)
  }

  /** Adds each team's count in `m` to its running total, over the keys `ks` in order. */
  function AddTeams(total: Dict<string, int>, ks: seq<string>, m: map<string, int>): Dict<string, int>
    requires forall i :: 0 <= i < |ks| ==> ks[i] in m
  {
    if ks == [] then total
    else
      var n := |ks| - 1;
      AddInt(AddTeams(total, ks[..n], m), ks[n], m[ks[n]])
  }

  /** Adds the `player_teams` counts of every row of one slice, row by row. */
  function AddRows(total: Dict<string, int>, sl: seq<DataRow>): Dict<string, int> {
    if sl == [] then total
    else
      var pt := sl[|sl| - 1].stats.playerTeams;
      AddTeams(AddRows(total, sl[..|sl| - 1]), pt.keys, pt.vals)
  }

  /** The `for season in seasons` loop for manager `m`. */
  function AddSeasons(total: Dict<string, int>, rows: seq<DataRow>, m: string, ss: seq<int>): Dict<string, int> {
    if ss == [] then total
    else
      var n := |ss| - 1;
      AddRows(AddSeasons(total, rows, m, ss[..n]), Filter(rows, Match(HasManager(m), Season, ss[n])))
  }

  /** `player_teams_total` of manager `m` before it is sorted. */
  function TeamTotals(rows: seq<DataRow>, m: string): Dict<string, int> {
    AddSeasons(Empty(), rows, m, Unique(SeasonColumn(rows)))
  }

  /** `sorted(d.items(), key=value, reverse=True)[0]`: the sort is stable,
      so this is the earliest-inserted key with the largest value. */
  function FirstMaxAt(vs: seq<int>): (i: nat)
    requires vs != []
    ensures i < |vs|
    ensures forall j :: 0 <= j < |vs| ==> vs[j] <= vs[i]
    ensures forall j :: 0 <= j < i ==> vs[j] < vs[i]
  {
    var n := |vs| - 1;
    if n == 0 then 0
    else
      var i := FirstMaxAt(vs[..n]);
      assert forall j :: 0 <= j < n ==> vs[..n][j] == vs[j];
      if vs[n] > vs[i] then n else i
  }

  /** The totals in insertion order, as `items()` lists them. */
  function Counts(t: Dict<string, int>): (vs: seq<int>)
    ensures |vs| == |t.keys| && forall i :: 0 <= i < |vs| ==> vs[i] == t.vals[t.keys[i]]
  {
    seq(|t.keys|, i requires 0 <= i < |t.keys| => t.vals[t.keys[i]])
  }

  /** `player_teams_total[0][0]` after the sort; needs a non-empty total. */
  function Favorite(t: Dict<string, int>): string
    requires t.keys != []
  {
    t.keys[FirstMaxAt(Counts(t))]
  }

  /** A manager and the favorite of their totals, None when the totals
      are empty and `player_teams_total[0]` raises an IndexError. */
  datatype Pick = Pick(manager: string, favorite: Option<string>)

  /** `favorite_teams[m] = ...` for one pick. */
  function FavoriteStep(r: Result<Dict<string, string>, AwardError>, p: Pick): Result<Dict<string, string>, AwardError> {
    if r.Err? then r
    else if p.favorite.None? then Err(NoPlayerTeams(p.manager))
    else Ok(Put(r.value, p.manager, p.favorite.value))
  }

  /** The `for manager in managers` loop over the picks, in order. */
  function Favorites(ps: seq<Pick>): Result<Dict<string, string>, AwardError> {
    if ps == [] then Ok(Empty()) else FavoriteStep(Favorites(ps[..|ps| - 1]), ps[|ps| - 1])
  }

  /** Manager `m`'s pick. */
  function FavoritePick(rows: seq<DataRow>, m: string): Pick {
    var t := TeamTotals(rows, m);
    Pick(m, if t.keys == [] then None else Some(Favorite(t)))
  }

  function Picks(rows: seq<DataRow>, ms: seq<string>): seq<Pick> {
    seq(|ms|, i requires 0 <= i < |ms| => FavoritePick(rows, ms[i]))
  }

  /** What `award_favorite_team` prints, or the error it raises. */
  function FavoriteTeams(rows: seq<DataRow>): Result<Dict<string, string>, AwardError> {
    Favorites(Picks(rows, Unique(ManagerColumn(rows))))
  }

  /** Row `x` lists team `k` in its `player_teams`. */
  predicate Lists(x: DataRow, k: string) {
    k in x.stats.playerTeams.vals
  }

  /** Some row of the sequence lists team `k`. */
  predicate AnyLists(sl: seq<DataRow>, k: string) {
    exists i :: 0 <= i < |sl| && Lists(sl[i], k)
  }

  /** Some row of manager `m` in one of the seasons `ss` lists team `k`. */
  predicate ManagerLists(rows: seq<DataRow>, m: string, ss: seq<int>, k: string) {
    exists i :: 0 <= i < |rows| && rows[i].manager == m && rows[i].season in ss && Lists(rows[i], k)
  }

  lemma AnyListsAppend(a: seq<DataRow>, x: DataRow, k: string)
    ensures AnyLists(a + [x], k) <==> AnyLists(a, k) || Lists(x, k)
  {
    if AnyLists(a, k) {
      var i :| 0 <= i < |a| && Lists(a[i], k);
      assert (a + [x])[i] == a[i];
    }
    if AnyLists(a + [x], k) {
      var i :| 0 <= i < |a| + 1 && Lists((a + [x])[i], k);
      if i < |a| {
        assert (a + [x])[i] == a[i];
      }
    }
    assert (a + [x])[|a|] == x;
  }

  lemma ManagerListsAppend(a: seq<DataRow>, x: DataRow, m: string, ss: seq<int>, k: string)
    ensures ManagerLists(a + [x], m, ss, k) <==>
      ManagerLists(a, m, ss, k) || (x.manager == m && x.season in ss && Lists(x, k))
  {
    var b := a + [x];
    if ManagerLists(a, m, ss, k) {
      var i :| 0 <= i < |a| && a[i].manager == m && a[i].season in ss && Lists(a[i], k);
      assert b[i] == a[i];
    }
    if ManagerLists(b, m, ss, k) {
      var i :| 0 <= i < |b| && b[i].manager == m && b[i].season in ss && Lists(b[i], k);
      if i < |a| {
        assert b[i] == a[i];
      }
    }
    assert b[|a|] == x;
  }

  lemma {:induction false} SliceLists(rows: seq<DataRow>, m: string, s: int, k: string)
    ensures AnyLists(Filter(rows, Match(HasManager(m), Season, s)), k) <==> ManagerLists(rows, m, [s], k)
  {
    if rows != [] {
      var n := |rows| - 1;
      SliceLists(rows[..n], m, s, k);
      AnyListsAppend(Filter(rows[..n], Match(HasManager(m), Season, s)), rows[n], k);
      ManagerListsAppend(rows[..n], rows[n], m, [s], k);
      assert rows[..n] + [rows[n]] == rows;
    }
  }

  lemma ManagerListsSplit(rows: seq<DataRow>, m: string, a: seq<int>, b: seq<int>, k: string)
    ensures ManagerLists(rows, m, a + b, k) <==> ManagerLists(rows, m, a, k) || ManagerLists(rows, m, b, k)
  {
    if ManagerLists(rows, m, a + b, k) {
      var j :| 0 <= j < |rows| && rows[j].manager == m && rows[j].season in a + b && Lists(rows[j], k);
      assert rows[j].season in a || rows[j].season in b;
    }
  }

  lemma {:induction false} AddTeamsCount(total: Dict<string, int>, ks: seq<string>, m: map<string, int>, k: string)
    requires Distinct(ks) && forall i :: 0 <= i < |ks| ==> ks[i] in m
    ensures GetOr(AddTeams(total, ks, m), k, 0) == GetOr(total, k, 0) + (if k in ks then m[k] else 0)
    ensures k in AddTeams(total, ks, m).vals <==> k in total.vals || k in ks
  {
    if ks != [] {
      var n := |ks| - 1;
      AddTeamsCount(total, ks[..n], m, k);
      assert ks == ks[..n] + [ks[n]];
      assert ks[n] !in ks[..n];
    }
  }

  lemma {:induction false} AddTeamsKeys(total: Dict<string, int>, ks: seq<string>, m: map<string, int>, k: string)
    requires forall i :: 0 <= i < |ks| ==> ks[i] in m
    ensures k in AddTeams(total, ks, m).vals <==> k in total.vals || k in ks
  {
    if ks != [] {
      var n := |ks| - 1;
      AddTeamsKeys(total, ks[..n], m, k);
      assert ks == ks[..n] + [ks[n]];
    }
  }

  /** The totals after a slice: each team gains its count in every row of the slice. */
  lemma {:induction false} AddRowsCount(total: Dict<string, int>, sl: seq<DataRow>, k: string)
    ensures GetOr(AddRows(total, sl), k, 0) == GetOr(total, k, 0) + Total(sl, TeamCount(k))
  {
    if sl != [] {
      var n := |sl| - 1;
      AddRowsCount(total, sl[..n], k);
      var pt := sl[n].stats.playerTeams;
      AddTeamsCount(AddRows(total, sl[..n]), pt.keys, pt.vals, k);
    }
  }

  /** A team gets a total exactly when some row of the slice lists it. */
  lemma {:induction false} AddRowsKeys(total: Dict<string, int>, sl: seq<DataRow>, k: string)
    ensures k in AddRows(total, sl).vals <==> k in total.vals || AnyLists(sl, k)
  {
    if sl != [] {
      var n := |sl| - 1;
      AddRowsKeys(total, sl[..n], k);
      var pt := sl[n].stats.playerTeams;
      assert AddRows(total, sl) == AddTeams(AddRows(total, sl[..n]), pt.keys, pt.vals);
      AddTeamsKeys(AddRows(total, sl[..n]), pt.keys, pt.vals, k);
      assert k in pt.keys <==> Lists(sl[n], k);
      AnyListsAppend(sl[..n], sl[n], k);
      assert sl[..n] + [sl[n]] == sl;
    }
  }

  lemma {:induction false} AddSeasonsCount(total: Dict<string, int>, rows: seq<DataRow>, m: string, ss: seq<int>, k: string)
    ensures GetOr(AddSeasons(total, rows, m, ss), k, 0) == GetOr(total, k, 0) + GroupedSum(rows, HasManager(m), Season, ss, TeamCount(k))
  {
    if ss != [] {
      var n := |ss| - 1;
      AddSeasonsCount(total, rows, m, ss[..n], k);
      var sl := Filter(rows, Match(HasManager(m), Season, ss[n]));
      AddRowsCount(AddSeasons(total, rows, m, ss[..n]), sl, k);
      TotalFilter(rows, Match(HasManager(m), Season, ss[n]), TeamCount(k));
    }
  }

  lemma {:induction false} AddSeasonsKeys(total: Dict<string, int>, rows: seq<DataRow>, m: string, ss: seq<int>, k: string)
    ensures k in AddSeasons(total, rows, m, ss).vals <==> k in total.vals || ManagerLists(rows, m, ss, k)
  {
    if ss != [] {
      var n := |ss| - 1;
      AddSeasonsKeys(total, rows, m, ss[..n], k);
      AddRowsKeys(AddSeasons(total, rows, m, ss[..n]), Filter(rows, Match(HasManager(m), Season, ss[n])), k);
      SliceLists(rows, m, ss[n], k);
      assert ss == ss[..n] + [ss[n]];
      ManagerListsSplit(rows, m, ss[..n], [ss[n]], k);
    }
  }

  /** Some row of manager `m` lists team `k`. */
  predicate ListedBy(rows: seq<DataRow>, m: string, k: string) {
    exists i :: 0 <= i < |rows| && rows[i].manager == m && Lists(rows[i], k)
  }

  /** A manager's total for a team is that team's count summed over all of
      the manager's rows, in every season. */
  lemma TeamTotalsSum(rows: seq<DataRow>, m: string, k: string)
    ensures GetOr(TeamTotals(rows, m), k, 0) == SumWhere(rows, HasManager(m), TeamCount(k))
  {
    var ss := Unique(SeasonColumn(rows));
    assert forall i :: 0 <= i < |rows| ==> rows[i].season == SeasonColumn(rows)[i];
    AddSeasonsCount(Empty(), rows, m, ss, k);
    GroupedSumCovered(rows, HasManager(m), Season, ss, TeamCount(k));
  }

  /** A team has a total exactly when one of the manager's rows lists it. */
  lemma TeamTotalsKeys(rows: seq<DataRow>, m: string, k: string)
    ensures k in TeamTotals(rows, m).vals <==> ListedBy(rows, m, k)
  {
    var ss := Unique(SeasonColumn(rows));
    assert forall i :: 0 <= i < |rows| ==> rows[i].season == SeasonColumn(rows)[i];
    AddSeasonsKeys(Empty(), rows, m, ss, k);
  }

  /** The favorite has the largest total, and every team inserted before
      it has a smaller one. */
  lemma FavoriteIsMax(t: Dict<string, int>)
    requires t.keys != []
    ensures Favorite(t) in t.vals
    ensures forall k :: k in t.vals ==> t.vals[k] <= t.vals[Favorite(t)]
    ensures exists i :: 0 <= i < |t.keys| && t.keys[i] == Favorite(t) && (forall j :: 0 <= j < i ==> t.vals[t.keys[j]] < t.vals[Favorite(t)])
  {
    var c := Counts(t);
    var i := FirstMaxAt(c);
    forall k | k in t.vals ensures t.vals[k] <= t.vals[Favorite(t)] {
      var j :| 0 <= j < |t.keys| && t.keys[j] == k;
      assert c[j] == t.vals[k];
    }
  }

  /** The favorite is a team one of the manager's rows lists. */
  lemma FavoriteListed(rows: seq<DataRow>, m: string)
    requires TeamTotals(rows, m).keys != []
    ensures ListedBy(rows, m, Favorite(TeamTotals(rows, m)))
  {
    TeamTotalsKeys(rows, m, Favorite(TeamTotals(rows, m)));
  }

  /** No team the manager lists has a larger count summed over their rows
      than the favorite. */
  lemma FavoriteBeats(rows: seq<DataRow>, m: string, k: string)
    requires TeamTotals(rows, m).keys != [] && ListedBy(rows, m, k)
    ensures SumWhere(rows, HasManager(m), TeamCount(k)) <= SumWhere(rows, HasManager(m), TeamCount(Favorite(TeamTotals(rows, m))))
  {
    var t := TeamTotals(rows, m);
    FavoriteIsMax(t);
    TeamTotalsKeys(rows, m, k);
    TeamTotalsSum(rows, m, k);
    TeamTotalsSum(rows, m, Favorite(t));
  }

  /** The loop fails exactly when some pick has no favorite, and then
      with that pick's manager. */
  lemma {:induction false} FavoritesOutcome(ps: seq<Pick>)
    ensures Favorites(ps).Ok? <==> forall i :: 0 <= i < |ps| ==> ps[i].favorite.Some?
    ensures Favorites(ps).Err? ==>
      exists i :: 0 <= i < |ps| && ps[i].favorite.None? && Favorites(ps).error == NoPlayerTeams(ps[i].manager)
  {
    if ps != [] {
      var n := |ps| - 1;
      FavoritesOutcome(ps[..n]);
      var r := Favorites(ps[..n]);
      assert forall i :: 0 <= i < n ==> ps[..n][i] == ps[i];
      if r.Err? {
        var i :| 0 <= i < n && ps[..n][i].favorite.None? && r.error == NoPlayerTeams(ps[..n][i].manager);
        assert ps[i].favorite.None? && r.error == NoPlayerTeams(ps[i].manager);
      }
    }
  }

  predicate DistinctManagers(ps: seq<Pick>) {
    forall i, j :: 0 <= i < j < |ps| ==> ps[i].manager != ps[j].manager
  }

  /** Assigning a manager not yet in the dict appends them to its keys. */
  lemma PutNewKey(prev: Dict<string, string>, ps: seq<Pick>, v: string)
    requires |ps| > 0 && DistinctManagers(ps)
    requires |prev.keys| == |ps| - 1
    requires forall i :: 0 <= i < |ps| - 1 ==> prev.keys[i] == ps[i].manager
    ensures |Put(prev, ps[|ps| - 1].manager, v).keys| == |ps|
    ensures forall i :: 0 <= i < |ps| ==> Put(prev, ps[|ps| - 1].manager, v).keys[i] == ps[i].manager
  {
    var n := |ps| - 1;
    var m := ps[n].manager;
    assert m !in prev.keys by {
      forall i | 0 <= i < |prev.keys| ensures prev.keys[i] != m {
        assert prev.keys[i] == ps[i].manager;
      }
    }
    assert m !in prev.vals;
    var r := Put(prev, m, v);
    assert r.keys == prev.keys + [m];
    forall i | 0 <= i < |ps| ensures r.keys[i] == ps[i].manager {
      if i < n {
        assert r.keys[i] == prev.keys[i];
      }
    }
  }

  /** With distinct managers, the keys are the managers in loop order. */
  lemma {:induction false} FavoritesKeys(ps: seq<Pick>)
    requires Favorites(ps).Ok? && DistinctManagers(ps)
    ensures |Favorites(ps).value.keys| == |ps|
    ensures forall i :: 0 <= i < |ps| ==> Favorites(ps).value.keys[i] == ps[i].manager
  {
    if ps != [] {
      var n := |ps| - 1;
      var prev := Favorites(ps[..n]);
      assert DistinctManagers(ps[..n]) by {
        forall i, j | 0 <= i < j < n ensures ps[..n][i].manager != ps[..n][j].manager {
          assert ps[..n][i] == ps[i] && ps[..n][j] == ps[j];
        }
      }
      FavoritesKeys(ps[..n]);
      forall i | 0 <= i < n ensures prev.value.keys[i] == ps[i].manager {
        assert ps[..n][i] == ps[i];
      }
      PutNewKey(prev.value, ps, ps[n].favorite.value);
    }
  }

  /** No later pick has the same manager as pick `i`. */
  predicate LastFor(ps: seq<Pick>, i: int)
    requires 0 <= i < |ps|
  {
    forall j :: i < j < |ps| ==> ps[j].manager != ps[i].manager
  }

  /** A manager is mapped to the favorite of their last pick. */
  lemma {:induction false} FavoritesValues(ps: seq<Pick>, i: int)
    requires Favorites(ps).Ok? && 0 <= i < |ps| && LastFor(ps, i)
    ensures ps[i].manager in Favorites(ps).value.vals
    ensures Some(Favorites(ps).value.vals[ps[i].manager]) == ps[i].favorite
  {
    var n := |ps| - 1;
    var prev := Favorites(ps[..n]);
    assert Favorites(ps).value.vals == prev.value.vals[ps[n].manager := ps[n].favorite.value];
    if i < n {
      assert ps[..n][i] == ps[i];
      assert LastFor(ps[..n], i) by {
        forall j | i < j < n ensures ps[..n][j].manager != ps[..n][i].manager {
          assert ps[..n][j] == ps[j];
        }
      }
      FavoritesValues(ps[..n], i);
    }
  }

  /** With one pick per manager of a duplicate-free list, the keys are the
      managers and each is mapped to the favorite of their pick. */
  lemma FavoritesFor(ps: seq<Pick>, ms: seq<string>)
    requires Favorites(ps).Ok? && Distinct(ms)
    requires |ps| == |ms| && forall i :: 0 <= i < |ps| ==> ps[i].manager == ms[i]
    ensures Favorites(ps).value.keys == ms
    ensures forall i :: 0 <= i < |ms| ==>
      ms[i] in Favorites(ps).value.vals && Some(Favorites(ps).value.vals[ms[i]]) == ps[i].favorite
  {
    FavoritesKeys(ps);
    forall i | 0 <= i < |ms|
      ensures ms[i] in Favorites(ps).value.vals && Some(Favorites(ps).value.vals[ms[i]]) == ps[i].favorite
    {
      FavoritesValues(ps, i);
    }
  }

  /** A manager's pick has a favorite exactly when one of their rows lists a team. */
  lemma PickAt(rows: seq<DataRow>, ms: seq<string>, i: int)
    requires 0 <= i < |ms|
    ensures Picks(rows, ms)[i].manager == ms[i]
    ensures Picks(rows, ms)[i].favorite.Some? <==> ListsAny(rows, ms[i])
    ensures Picks(rows, ms)[i].favorite.Some? ==>
      TeamTotals(rows, ms[i]).keys != [] && Picks(rows, ms)[i].favorite.value == Favorite(TeamTotals(rows, ms[i]))
  {
    HasTotals(rows, ms[i]);
  }

  /** `award_favorite_team` fails exactly when some manager's rows list no
      team at all. */
  lemma FavoriteTeamsFails(rows: seq<DataRow>)
    ensures var ms := Unique(ManagerColumn(rows));
      FavoriteTeams(rows).Ok? <==> forall i :: 0 <= i < |ms| ==> ListsAny(rows, ms[i])
  {
    var ms := Unique(ManagerColumn(rows));
    var ps := Picks(rows, ms);
    FavoritesOutcome(ps);
    forall i | 0 <= i < |ms|
      ensures ps[i].favorite.Some? <==> ListsAny(rows, ms[i])
    {
      PickAt(rows, ms, i);
    }
  }

  /** The error names a manager of the data whose rows list no team. */
  lemma FavoriteTeamsError(rows: seq<DataRow>)
    requires FavoriteTeams(rows).Err?
    ensures exists j :: 0 <= j < |rows| && FavoriteTeams(rows).error == NoPlayerTeams(rows[j].manager) && !ListsAny(rows, rows[j].manager)
  {
    var col := ManagerColumn(rows);
    var ms := Unique(col);
    var ps := Picks(rows, ms);
    var e := Favorites(ps);
    assert FavoriteTeams(rows) == e;
    FavoritesOutcome(ps);
    var i :| 0 <= i < |ps| && ps[i].favorite.None? && e.error == NoPlayerTeams(ps[i].manager);
    PickAt(rows, ms, i);
    assert ms[i] in col;
    var j :| 0 <= j < |col| && col[j] == ms[i];
    assert rows[j].manager == ms[i];
    assert e.error == NoPlayerTeams(rows[j].manager) && !ListsAny(rows, rows[j].manager);
  }

  /** Otherwise it names, for every manager in order of first appearance,
      the favorite of their team totals. */
  lemma FavoriteTeamsValues(rows: seq<DataRow>)
    requires FavoriteTeams(rows).Ok?
    ensures FavoriteTeams(rows).value.keys == Unique(ManagerColumn(rows))
    ensures var ms := Unique(ManagerColumn(rows));
      forall i :: 0 <= i < |ms| ==>
        TeamTotals(rows, ms[i]).keys != [] && FavoriteTeams(rows).value.vals[ms[i]] == Favorite(TeamTotals(rows, ms[i]))
  {
    var ms := Unique(ManagerColumn(rows));
    var ps := Picks(rows, ms);
    FavoritesOutcome(ps);
    FavoritesFor(ps, ms);
    forall i | 0 <= i < |ms|
      ensures TeamTotals(rows, ms[i]).keys != [] && Favorites(ps).value.vals[ms[i]] == Favorite(TeamTotals(rows, ms[i]))
    {
      PickAt(rows, ms, i);
    }
  }

  /** Some row of manager `m` has a non-empty `player_teams`. */
  predicate ListsAny(rows: seq<DataRow>, m: string) {
    exists j :: 0 <= j < |rows| && rows[j].manager == m && rows[j].stats.playerTeams.keys != []
  }

  /** A manager has totals exactly when one of their rows lists a team. */
  lemma HasTotals(rows: seq<DataRow>, m: string)
    ensures TeamTotals(rows, m).keys != [] <==> ListsAny(rows, m)
  {
    var t := TeamTotals(rows, m);
    if t.keys != [] {
      TeamTotalsKeys(rows, m, t.keys[0]);
      var j :| 0 <= j < |rows| && rows[j].manager == m && Lists(rows[j], t.keys[0]);
      assert t.keys[0] in rows[j].stats.playerTeams.vals;
    }
    if ListsAny(rows, m) {
      var j :| 0 <= j < |rows| && rows[j].manager == m && rows[j].stats.playerTeams.keys != [];
      var k := rows[j].stats.playerTeams.keys[0];
      assert Lists(rows[j], k);
      TeamTotalsKeys(rows, m, k);
      assert k in t.vals;
    }
  }

  /** Adds one row's `player_teams` counts to the manager's running totals. */
  method AddPlayerTeams(total: Dict<string, int>, playerTeams: Dict<string, int>) returns (t: Dict<string, int>)
    ensures t == AddTeams(total, playerTeams.keys, playerTeams.vals)
  {
    t := total;
    for i := 0 to |playerTeams.keys|
      invariant t == AddTeams(total, playerTeams.keys[..i], playerTeams.vals)
    {
      AddTeamsNext(total, playerTeams, i);
      var k := playerTeams.keys[i];
      t := AddInt(t, k, playerTeams.vals[k]);
    }
    assert playerTeams.keys[..|playerTeams.keys|] == playerTeams.keys;
  }

  lemma AddTeamsNext(total: Dict<string, int>, d: Dict<string, int>, i: nat)
    requires i < |d.keys|
    ensures AddTeams(total, d.keys[..i + 1], d.vals)
      == AddInt(AddTeams(total, d.keys[..i], d.vals), d.keys[i], d.vals[d.keys[i]])
  {
    assert d.keys[..i + 1][..i] == d.keys[..i];
  }

  /** One season's slice of a manager's rows. */
  method AddSlice(total: Dict<string, int>, slice: seq<DataRow>) returns (t: Dict<string, int>)
    ensures t == AddRows(total, slice)
  {
    t := total;
    for i := 0 to |slice|
      invariant t == AddRows(total, slice[..i])
    {
      assert slice[..i + 1][..i] == slice[..i];
      t := AddPlayerTeams(t, slice[i].stats.playerTeams);
    }
    assert slice[..|slice|] == slice;
  }

  /** `player_teams_total` for manager `m` (lines 91-102). */
  method ManagerTeamTotals(rows: seq<DataRow>, m: string, seasons: seq<int>) returns (t: Dict<string, int>)
    ensures t == AddSeasons(Empty(), rows, m, seasons)
  {
    t := Empty();
    for i := 0 to |seasons|
      invariant t == AddSeasons(Empty(), rows, m, seasons[..i])
    {
      assert seasons[..i + 1][..i] == seasons[..i];
      var slice := Filter(rows, Match(HasManager(m), Season, seasons[i]));
      t := AddSlice(t, slice);
    }
    assert seasons[..|seasons|] == seasons;
  }

  lemma FavoritesNext(ps: seq<Pick>, i: nat)
    requires i < |ps|
    ensures Favorites(ps[..i + 1]) == FavoriteStep(Favorites(ps[..i]), ps[i])
  {
    assert ps[..i + 1][..i] == ps[..i];
  }

  lemma {:induction false} FavoritesStop(ps: seq<Pick>, i: nat)
    requires i <= |ps| && Favorites(ps[..i]).Err?
    ensures Favorites(ps) == Favorites(ps[..i])
  {
    if i < |ps| {
      var n := |ps| - 1;
      assert ps[..n][..i] == ps[..i];
      FavoritesStop(ps[..n], i);
    } else {
      assert ps[..i] == ps;
    }
  }

  /** `award_favorite_team`: the favorites it prints, or the IndexError. */
  method AwardFavoriteTeam(rows: seq<DataRow>) returns (r: Result<Dict<string, string>, AwardError>)
    ensures r == FavoriteTeams(rows)
  {
    var managers := Unique(ManagerColumn(rows));
    var seasons := Unique(SeasonColumn(rows));
    ghost var ps := Picks(rows, managers);
    var favorites := Empty();
    for i := 0 to |managers|
      invariant Favorites(ps[..i]) == Ok(favorites)
    {
      FavoritesNext(ps, i);
      var manager := managers[i];
      var totals := ManagerTeamTotals(rows, manager, seasons);
      assert ps[i] == FavoritePick(rows, manager);
      if totals.keys == [] {
        r := Err(NoPlayerTeams(manager));
        FavoritesStop(ps, i + 1);
        return;
      }
      favorites := Put(favorites, manager, Favorite(totals));
    }
    assert ps[..|ps|] == ps;
    r := Ok(favorites);
  }
}
