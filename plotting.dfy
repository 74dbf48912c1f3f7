/** The data the plots of plotting.py are drawn from: the head-to-head
    records of the heatmap, the winnings ledger, the per-manager trade
    counts and the weighted trade network. Drawing is not modelled. */
module Plotting {
  import opened PySeq
  import opened PyDict
  import opened Records
  import opened Tally
  import opened Save
  import opened ContentGen

  // ---- plot_proj_heatmap ----

  /** A head-to-head record "(wins-losses)". */
  datatype Record = Record(wins: nat, losses: nat)

  /** One entry of `matchup_data`/`annot_data`: no record for a
      self-pairing or a pairing that never happened. */
  datatype Cell = Cell(manager: string, opponent: string, record: Option<Record>)

  /** The mask `(df['manager'] == m) & (df['opponent'] == o)`. */
  function Pairing(m: string, o: string): DataRow -> bool {
    (x: DataRow) => x.manager == m && x.stats.opponent == o
  }

  /** The mask `points > opp_points`. */
  function Won(): DataRow -> bool {
    (x: DataRow) => x.stats.points > x.stats.oppPoints
  }

  /** The mask `points < opp_points`. */
  function Lost(): DataRow -> bool {
    (x: DataRow) => x.stats.points < x.stats.oppPoints
  }

  /** `sorted(df['manager'].unique())` */
  function HeatManagers(rows: seq<DataRow>): seq<string> {
    SortedUnique(ManagerColumn(rows))
  }

  /** The cell of manager `m` against opponent `o`. */
  function CellFor(rows: seq<DataRow>, m: string, o: string): Cell {
    if m == o then Cell(m, o, None)
    else
      var sl := Filter(rows, Pairing(m, o));
      if sl == [] then Cell(m, o, None)
      else Cell(m, o, Some(Record(CountIf(sl, Won()), CountIf(sl, Lost()))))
  }

  /** A pairing has a record exactly when it is not a self-pairing and some
      row has that manager against that opponent. */
  lemma CellHasRecord(rows: seq<DataRow>, m: string, o: string)
    ensures CellFor(rows, m, o).record.Some? <==> m != o && CountIf(rows, Pairing(m, o)) > 0
  {
    FilterMeaning(rows, Pairing(m, o));
  }

  /** Wins count the rows of the pairing with more points than the opponent,
      losses those with fewer; a tie counts for neither, so the record never
      exceeds the number of meetings. */
  lemma CellRecordMeaning(rows: seq<DataRow>, m: string, o: string)
    requires CellFor(rows, m, o).record.Some?
    ensures var r := CellFor(rows, m, o).record.value;
      && r.wins == CountIf(rows, Both(Pairing(m, o), Won()))
      && r.losses == CountIf(rows, Both(Pairing(m, o), Lost()))
      && r.wins + r.losses <= CountIf(rows, Pairing(m, o))
  {
    var sl := Filter(rows, Pairing(m, o));
    CountIfFilter(rows, Pairing(m, o), Won());
    CountIfFilter(rows, Pairing(m, o), Lost());
    CountIfDisjoint(sl, Won(), Lost(), (x: DataRow) => true);
    assert CountIf(sl, (x: DataRow) => true) <= |sl|;
    FilterMeaning(rows, Pairing(m, o));
  }

  /** The inner `for opponent in managers` loop for one manager. */
  method HeatmapRow(rows: seq<DataRow>, manager: string, managers: seq<string>) returns (cells: seq<Cell>)
    ensures |cells| == |managers|
    ensures forall j :: 0 <= j < |managers| ==> cells[j] == CellFor(rows, manager, managers[j])
  {
    cells := [];
    for j := 0 to |managers|
      invariant |cells| == j
      invariant forall k :: 0 <= k < j ==> cells[k] == CellFor(rows, manager, managers[k])
    {
      var opponent := managers[j];
      if manager == opponent {
        cells := cells + [Cell(manager, opponent, None)];
        continue;
      }
      var slice := Filter(rows, Pairing(manager, opponent));
      if slice != [] {
        var wins := CountIf(slice, Won());
        var losses := CountIf(slice, Lost());
        cells := cells + [Cell(manager, opponent, Some(Record(wins, losses)))];
      } else {
        cells := cells + [Cell(manager, opponent, None)];
      }
    }
  }

  /** The cells of manager `m` against each of `os`. */
  function RowCells(rows: seq<DataRow>, m: string, os: seq<string>): seq<Cell> {
    seq(|os|, j requires 0 <= j < |os| => CellFor(rows, m, os[j]))
  }

  /** The `matchup_data` list for managers `ms` against opponents `os`. */
  function HeatGrid(rows: seq<DataRow>, ms: seq<string>, os: seq<string>): seq<Cell> {
    if ms == [] then [] else HeatGrid(rows, ms[..|ms| - 1], os) + RowCells(rows, ms[|ms| - 1], os)
  }

  lemma {:induction false} HeatGridLength(rows: seq<DataRow>, ms: seq<string>, os: seq<string>)
    ensures |HeatGrid(rows, ms, os)| == |ms| * |os|
  {
    if ms != [] {
      var n := |ms| - 1;
      HeatGridLength(rows, ms[..n], os);
      assert |ms| * |os| == n * |os| + |os|;
    }
  }

  /** Cell `i * |os| + j` pairs the i-th manager with the j-th opponent. */
  lemma {:induction false} HeatGridAt(rows: seq<DataRow>, ms: seq<string>, os: seq<string>, i: int, j: int)
    requires 0 <= i < |ms| && 0 <= j < |os|
    ensures |HeatGrid(rows, ms, os)| == |ms| * |os|
    ensures i * |os| + j < |HeatGrid(rows, ms, os)|
    ensures HeatGrid(rows, ms, os)[i * |os| + j] == CellFor(rows, ms[i], os[j])
  {
    var n := |ms| - 1;
    HeatGridLength(rows, ms, os);
    HeatGridLength(rows, ms[..n], os);
    if i < n {
      HeatGridAt(rows, ms[..n], os, i, j);
    } else {
      assert i * |os| + j == |HeatGrid(rows, ms[..n], os)| + j;
    }
  }

  /** The outer `for manager in managers` loop. */
  method HeatmapGrid(rows: seq<DataRow>, managers: seq<string>) returns (cells: seq<Cell>)
    ensures cells == HeatGrid(rows, managers, managers)
  {
    cells := [];
    for i := 0 to |managers|
      invariant cells == HeatGrid(rows, managers[..i], managers)
    {
      assert managers[..i + 1][..i] == managers[..i];
      var row := HeatmapRow(rows, managers[i], managers);
      assert row == RowCells(rows, managers[i], managers);
      cells := cells + row;
    }
    assert managers[..|managers|] == managers;
  }

  /** `matchup_data`: manager by manager, opponent by opponent, over the
      sorted managers. */
  method HeatmapCells(rows: seq<DataRow>) returns (cells: seq<Cell>)
    ensures cells == HeatGrid(rows, HeatManagers(rows), HeatManagers(rows))
  {
    cells := HeatmapGrid(rows, HeatManagers(rows));
  }

  // ---- plot_winnings ----

  /** A season of league_dues.json: the payout for each final rank and the dues. */
  datatype Dues = Dues(payouts: seq<int>, dues: int)

  /** The exceptions the ledger can raise: `.item()` on a slice without
      exactly one row (ValueError), a season missing from the dues file
      (KeyError) and a rank outside the payouts list (IndexError). */
  datatype PlotError =
    | NotOneRow(season: int, manager: string, count: nat)
    | MissingSeason(season: int)
    | PayoutIndex(season: int, index: int)

  type Ledger = Result<Dict<string, int>, PlotError>

  function SeasonOf(x: StandingsRow): int {
    x.season
  }

  function StandingsSeasonColumn(rows: seq<StandingsRow>): seq<int> {
    seq(|rows|, i requires 0 <= i < |rows| => rows[i].season)
  }

  /** The mask `(df['season'] == s) & (df['manager'] == m)`. */
  function AtSeasonManager(s: int, m: string): StandingsRow -> bool {
    Match(IsManager(m), SeasonOf, s)
  }

  /** `payouts[rank-1] - dues` of season `s`, Python indexing included. */
  function Net(dues: map<int, Dues>, s: int, rank: int): Result<int, PlotError> {
    if s !in dues then Err(MissingSeason(s))
    else if !IndexOk(|dues[s].payouts|, rank - 1) then Err(PayoutIndex(s, rank - 1))
    else Ok(dues[s].payouts[Position(|dues[s].payouts|, rank - 1)] - dues[s].dues)
  }

  /** The net winnings of a standings row, 0 where the lookup would fail. */
  function NetOf(dues: map<int, Dues>): StandingsRow -> int {
    (x: StandingsRow) => var r := Net(dues, x.season, x.stats.rank); if r.Ok? then r.value else 0
  }

  /** The amount added for manager `m` in season `s`, or the error raised. */
  function PairNet(rows: seq<StandingsRow>, dues: map<int, Dues>, s: int, m: string): Result<int, PlotError> {
    var sl := Filter(rows, AtSeasonManager(s, m));
    if |sl| != 1 then Err(NotOneRow(s, m, |sl|)) else Net(dues, s, sl[0].stats.rank)
  }

  /** The amount of every (season, manager) pair: `pairs(s)(m)`. */
  function Pairs(rows: seq<StandingsRow>, dues: map<int, Dues>): int -> string -> Result<int, PlotError> {
    (s: int) => (m: string) => PairNet(rows, dues, s, m)
  }

  /** `total_winnings[manager] += v`, or the error `v` raised. */
  function WinStep(r: Ledger, v: Result<int, PlotError>, m: string): Ledger {
    if r.Err? then r
    else if v.Err? then Err(v.error)
    else Ok(AddInt(r.value, m, v.value))
  }

  /** The inner `for manager in ...` loop, with the amounts `pair` of its season. */
  function WinManagers(r: Ledger, pair: string -> Result<int, PlotError>, ms: seq<string>): Ledger {
    if ms == [] then r
    else var m := ms[|ms| - 1]; WinStep(WinManagers(r, pair, ms[..|ms| - 1]), pair(m), m)
  }

  /** The outer `for season in ...` loop. */
  function WinSeasons(r: Ledger, pairs: int -> string -> Result<int, PlotError>, ss: seq<int>, ms: seq<string>): Ledger {
    if ss == [] then r
    else WinManagers(WinSeasons(r, pairs, ss[..|ss| - 1], ms), pairs(ss[|ss| - 1]), ms)
  }

  /** The managers of standings.csv in order of first appearance. */
  function LedgerManagers(rows: seq<StandingsRow>): seq<string> {
    Unique(StandingsManagerColumn(rows))
  }

  /** The seasons of standings.csv in order of first appearance. */
  function LedgerSeasons(rows: seq<StandingsRow>): seq<int> {
    Unique(StandingsSeasonColumn(rows))
  }

  /** `total_winnings` after both loops, or the error raised. */
  function Winnings(rows: seq<StandingsRow>, dues: map<int, Dues>): Ledger {
    var ms := LedgerManagers(rows);
    WinSeasons(Ok(FromKeys(ms, 0)), Pairs(rows, dues), LedgerSeasons(rows), ms)
  }

  /** A pair that does not fail adds the net winnings of its one row. */
  lemma PairNetValue(rows: seq<StandingsRow>, dues: map<int, Dues>, s: int, m: string)
    requires PairNet(rows, dues, s, m).Ok?
    ensures CountIf(rows, AtSeasonManager(s, m)) == 1
    ensures PairNet(rows, dues, s, m).value == SumWhere(rows, AtSeasonManager(s, m), NetOf(dues))
  {
    var sl := Filter(rows, AtSeasonManager(s, m));
    FilterMeaning(rows, AtSeasonManager(s, m));
    SumWhereOne(rows, AtSeasonManager(s, m), NetOf(dues));
    assert AtSeasonManager(s, m)(sl[0]);
  }

  /** Every manager of a season has an amount. */
  predicate SeasonOk(pair: string -> Result<int, PlotError>, ms: seq<string>) {
    forall j :: 0 <= j < |ms| ==> pair(ms[j]).Ok?
  }

  /** The loop over managers succeeds exactly when every amount does. */
  lemma {:induction false} WinManagersOk(r: Ledger, pair: string -> Result<int, PlotError>, ms: seq<string>)
    requires r.Ok?
    ensures WinManagers(r, pair, ms).Ok? <==> SeasonOk(pair, ms)
  {
    if ms != [] {
      var n := |ms| - 1;
      WinManagersOk(r, pair, ms[..n]);
      assert forall j :: 0 <= j < n ==> ms[..n][j] == ms[j];
    }
  }

  /** Once raised, an error passes through the rest of the loop. */
  lemma {:induction false} WinManagersErr(r: Ledger, pair: string -> Result<int, PlotError>, ms: seq<string>)
    requires r.Err?
    ensures WinManagers(r, pair, ms) == r
  {
    if ms != [] {
      WinManagersErr(r, pair, ms[..|ms| - 1]);
    }
  }

  /** Each manager of the loop gains their amount; nobody else changes. */
  lemma {:induction false} WinManagersValue(r: Ledger, pair: string -> Result<int, PlotError>, ms: seq<string>, m: string)
    requires r.Ok? && Distinct(ms) && WinManagers(r, pair, ms).Ok?
    ensures m in ms ==> pair(m).Ok?
    ensures GetOr(WinManagers(r, pair, ms).value, m, 0) ==
      GetOr(r.value, m, 0) + (if m in ms && pair(m).Ok? then pair(m).value else 0)
  {
    if ms != [] {
      var n := |ms| - 1;
      assert ms == ms[..n] + [ms[n]];
      assert ms[n] !in ms[..n];
      WinManagersValue(r, pair, ms[..n], m);
    }
  }

  /** Adding to existing keys keeps the keys. */
  lemma {:induction false} WinManagersKeys(r: Ledger, pair: string -> Result<int, PlotError>, ms: seq<string>)
    requires r.Ok? && forall j :: 0 <= j < |ms| ==> ms[j] in r.value.vals
    ensures WinManagers(r, pair, ms).Ok? ==> WinManagers(r, pair, ms).value.keys == r.value.keys
  {
    if ms != [] {
      var n := |ms| - 1;
      assert forall j :: 0 <= j < n ==> ms[..n][j] == ms[j];
      WinManagersKeys(r, pair, ms[..n]);
      var p := WinManagers(r, pair, ms[..n]);
      if p.Err? {
        WinManagersErr(p, pair, [ms[n]]);
      }
    }
  }

  /** Every season has an amount for every manager. */
  predicate SeasonsOk(pairs: int -> string -> Result<int, PlotError>, ss: seq<int>, ms: seq<string>) {
    forall i :: 0 <= i < |ss| ==> SeasonOk(pairs(ss[i]), ms)
  }

  lemma SeasonsOkSplit(pairs: int -> string -> Result<int, PlotError>, ss: seq<int>, ms: seq<string>)
    requires ss != []
    ensures SeasonsOk(pairs, ss, ms) <==> SeasonsOk(pairs, ss[..|ss| - 1], ms) && SeasonOk(pairs(ss[|ss| - 1]), ms)
  {
    assert forall i :: 0 <= i < |ss| - 1 ==> ss[..|ss| - 1][i] == ss[i];
  }

  /** The ledger succeeds exactly when every season does. */
  lemma {:induction false} WinSeasonsOk(r: Ledger, pairs: int -> string -> Result<int, PlotError>, ss: seq<int>, ms: seq<string>)
    requires r.Ok?
    ensures WinSeasons(r, pairs, ss, ms).Ok? <==> SeasonsOk(pairs, ss, ms)
  {
    if ss != [] {
      var n := |ss| - 1;
      WinSeasonsOk(r, pairs, ss[..n], ms);
      SeasonsOkSplit(pairs, ss, ms);
      var p := WinSeasons(r, pairs, ss[..n], ms);
      if p.Ok? {
        WinManagersOk(p, pairs(ss[n]), ms);
      } else {
        WinManagersErr(p, pairs(ss[n]), ms);
      }
    }
  }

  /** The same, pair by pair. */
  lemma WinSeasonsEvery(r: Ledger, pairs: int -> string -> Result<int, PlotError>, ss: seq<int>, ms: seq<string>)
    requires r.Ok?
    ensures WinSeasons(r, pairs, ss, ms).Ok? <==>
      forall i, j :: 0 <= i < |ss| && 0 <= j < |ms| ==> pairs(ss[i])(ms[j]).Ok?
  {
    WinSeasonsOk(r, pairs, ss, ms);
  }

  /** A manager of the loop has an amount in every season. */
  lemma WinSeasonsManager(r: Ledger, pairs: int -> string -> Result<int, PlotError>, ss: seq<int>, ms: seq<string>, m: string)
    requires r.Ok? && m in ms && WinSeasons(r, pairs, ss, ms).Ok?
    ensures forall i :: 0 <= i < |ss| ==> pairs(ss[i])(m).Ok?
  {
    WinSeasonsOk(r, pairs, ss, ms);
    forall i | 0 <= i < |ss| ensures pairs(ss[i])(m).Ok? {
      assert SeasonOk(pairs(ss[i]), ms);
    }
  }

  /** The keys stay those of the initial ledger. */
  lemma {:induction false} WinSeasonsKeys(r: Ledger, pairs: int -> string -> Result<int, PlotError>, ss: seq<int>, ms: seq<string>)
    requires r.Ok? && forall j :: 0 <= j < |ms| ==> ms[j] in r.value.vals
    ensures WinSeasons(r, pairs, ss, ms).Ok? ==> WinSeasons(r, pairs, ss, ms).value.keys == r.value.keys
  {
    if ss != [] {
      var n := |ss| - 1;
      WinSeasonsKeys(r, pairs, ss[..n], ms);
      var p := WinSeasons(r, pairs, ss[..n], ms);
      if p.Ok? {
        WinManagersKeys(p, pairs(ss[n]), ms);
      } else {
        WinManagersErr(p, pairs(ss[n]), ms);
      }
    }
  }

  /** The amounts of manager `m` over the seasons `ss`. */
  function SeasonTotal(pairs: int -> string -> Result<int, PlotError>, ss: seq<int>, m: string): int {
    if ss == [] then 0
    else
      var v := pairs(ss[|ss| - 1])(m);
      SeasonTotal(pairs, ss[..|ss| - 1], m) + (if v.Ok? then v.value else 0)
  }

  /** Each manager gains, season by season, their amount. */
  lemma {:induction false} WinSeasonsValue(r: Ledger, pairs: int -> string -> Result<int, PlotError>, ss: seq<int>, ms: seq<string>, m: string)
    requires r.Ok? && Distinct(ms) && m in ms && WinSeasons(r, pairs, ss, ms).Ok?
    ensures GetOr(WinSeasons(r, pairs, ss, ms).value, m, 0) == GetOr(r.value, m, 0) + SeasonTotal(pairs, ss, m)
  {
    if ss != [] {
      var n := |ss| - 1;
      var p := WinSeasons(r, pairs, ss[..n], ms);
      if p.Err? {
        WinManagersErr(p, pairs(ss[n]), ms);
      }
      WinSeasonsValue(r, pairs, ss[..n], ms, m);
      WinManagersValue(p, pairs(ss[n]), ms, m);
    }
  }

  /** Where every pair of `m` succeeds, their amounts over the seasons are
      the per-season sums of `m`'s net winnings. */
  lemma {:induction false} SeasonTotalGrouped(rows: seq<StandingsRow>, dues: map<int, Dues>, ss: seq<int>, m: string)
    requires forall i :: 0 <= i < |ss| ==> PairNet(rows, dues, ss[i], m).Ok?
    ensures SeasonTotal(Pairs(rows, dues), ss, m) == GroupedSum(rows, IsManager(m), SeasonOf, ss, NetOf(dues))
  {
    if ss != [] {
      var n := |ss| - 1;
      assert forall i :: 0 <= i < n ==> ss[..n][i] == ss[i];
      SeasonTotalGrouped(rows, dues, ss[..n], m);
      PairNetValue(rows, dues, ss[n], m);
    }
  }

  /** `plot_winnings` succeeds exactly when every (season, manager) pair
      has one standings row and a payout for its rank. */
  lemma WinningsOk(rows: seq<StandingsRow>, dues: map<int, Dues>)
    ensures var ss := LedgerSeasons(rows);
      var ms := LedgerManagers(rows);
      Winnings(rows, dues).Ok? <==>
        forall i, j :: 0 <= i < |ss| && 0 <= j < |ms| ==> PairNet(rows, dues, ss[i], ms[j]).Ok?
  {
    var ss := LedgerSeasons(rows);
    var ms := LedgerManagers(rows);
    WinSeasonsEvery(Ok(FromKeys(ms, 0)), Pairs(rows, dues), ss, ms);
  }

  /** In particular every (season, manager) pair then has exactly one row. */
  lemma WinningsOneRow(rows: seq<StandingsRow>, dues: map<int, Dues>, i: int, j: int)
    requires Winnings(rows, dues).Ok?
    requires 0 <= i < |LedgerSeasons(rows)| && 0 <= j < |LedgerManagers(rows)|
    ensures CountIf(rows, AtSeasonManager(LedgerSeasons(rows)[i], LedgerManagers(rows)[j])) == 1
  {
    WinningsOk(rows, dues);
    PairNetValue(rows, dues, LedgerSeasons(rows)[i], LedgerManagers(rows)[j]);
  }

  /** Otherwise every manager of the standings is a key, in order of first
      appearance, holding the net winnings summed over all their rows. */
  lemma WinningsKeys(rows: seq<StandingsRow>, dues: map<int, Dues>)
    requires Winnings(rows, dues).Ok?
    ensures Winnings(rows, dues).value.keys == LedgerManagers(rows)
  {
    var ms := LedgerManagers(rows);
    WinSeasonsKeys(Ok(FromKeys(ms, 0)), Pairs(rows, dues), LedgerSeasons(rows), ms);
  }

  /** Where each season of `m` succeeds, `m`'s amounts over the seasons of
      the table add up to their net winnings over all their rows. */
  lemma ManagerNet(rows: seq<StandingsRow>, dues: map<int, Dues>, m: string)
    requires forall i :: 0 <= i < |LedgerSeasons(rows)| ==> Pairs(rows, dues)(LedgerSeasons(rows)[i])(m).Ok?
    ensures SeasonTotal(Pairs(rows, dues), LedgerSeasons(rows), m) == SumWhere(rows, IsManager(m), NetOf(dues))
  {
    var ss := LedgerSeasons(rows);
    SeasonTotalGrouped(rows, dues, ss, m);
    assert forall i :: 0 <= i < |rows| ==> rows[i].season == StandingsSeasonColumn(rows)[i];
    GroupedSumCovered(rows, IsManager(m), SeasonOf, ss, NetOf(dues));
  }

  /** ... and each key holds the manager's net winnings summed over all
      their standings rows. */
  lemma WinningsValue(rows: seq<StandingsRow>, dues: map<int, Dues>, m: string)
    requires Winnings(rows, dues).Ok? && m in LedgerManagers(rows)
    ensures GetOr(Winnings(rows, dues).value, m, 0) == SumWhere(rows, IsManager(m), NetOf(dues))
  {
    var ms := LedgerManagers(rows);
    var r := Ok(FromKeys(ms, 0));
    WinSeasonsValue(r, Pairs(rows, dues), LedgerSeasons(rows), ms, m);
    WinSeasonsManager(r, Pairs(rows, dues), LedgerSeasons(rows), ms, m);
    ManagerNet(rows, dues, m);
  }

  /** An error raised part-way through the managers is the loop's result. */
  lemma {:induction false} WinManagersStops(r: Ledger, pair: string -> Result<int, PlotError>, ms: seq<string>, i: nat)
    requires i <= |ms| && WinManagers(r, pair, ms[..i]).Err?
    ensures WinManagers(r, pair, ms) == WinManagers(r, pair, ms[..i])
  {
    if i < |ms| {
      var n := |ms| - 1;
      assert ms[..n][..i] == ms[..i];
      WinManagersStops(r, pair, ms[..n], i);
      var p := WinManagers(r, pair, ms[..n]);
      assert p.Err?;
      assert WinManagers(r, pair, ms) == WinStep(p, pair(ms[n]), ms[n]) by {
        assert ms[..|ms| - 1] == ms[..n];
      }
    } else {
      assert ms[..i] == ms;
    }
  }

  /** An error raised part-way through the seasons is the ledger's result. */
  lemma {:induction false} WinSeasonsStops(r: Ledger, pairs: int -> string -> Result<int, PlotError>, ss: seq<int>, ms: seq<string>, i: nat)
    requires i <= |ss| && WinSeasons(r, pairs, ss[..i], ms).Err?
    ensures WinSeasons(r, pairs, ss, ms) == WinSeasons(r, pairs, ss[..i], ms)
  {
    if i < |ss| {
      var n := |ss| - 1;
      assert ss[..n][..i] == ss[..i];
      WinSeasonsStops(r, pairs, ss[..n], ms, i);
      WinManagersErr(WinSeasons(r, pairs, ss[..n], ms), pairs(ss[n]), ms);
    } else {
      assert ss[..i] == ss;
    }
  }

  /** The right-hand side of `total_winnings[manager] += ...`: the rank
      read by `.item()`, then the payout and the dues of the season. */
  method PairAmount(rows: seq<StandingsRow>, dues: map<int, Dues>, season: int, manager: string)
    returns (v: Result<int, PlotError>)
    ensures v == PairNet(rows, dues, season, manager)
  {
    var slice := Filter(rows, AtSeasonManager(season, manager));
    if |slice| != 1 {
      return Err(NotOneRow(season, manager, |slice|));
    }
    var rank := slice[0].stats.rank;
    if season !in dues {
      return Err(MissingSeason(season));
    }
    var payouts := dues[season].payouts;
    if !IndexOk(|payouts|, rank - 1) {
      return Err(PayoutIndex(season, rank - 1));
    }
    v := Ok(payouts[Position(|payouts|, rank - 1)] - dues[season].dues);
  }

  lemma WinSeasonsNext(r: Ledger, pairs: int -> string -> Result<int, PlotError>, ss: seq<int>, ms: seq<string>, i: nat)
    requires i < |ss|
    ensures WinSeasons(r, pairs, ss[..i + 1], ms) == WinManagers(WinSeasons(r, pairs, ss[..i], ms), pairs(ss[i]), ms)
  {
    assert ss[..i + 1][..i] == ss[..i];
  }

  /** The inner loop of `plot_winnings` for `season`. */
  method WinSeason(total: Dict<string, int>, rows: seq<StandingsRow>, dues: map<int, Dues>, season: int, managers: seq<string>)
    returns (r: Ledger)
    ensures r == WinManagers(Ok(total), Pairs(rows, dues)(season), managers)
  {
    ghost var pair := Pairs(rows, dues)(season);
    var t := total;
    for i := 0 to |managers|
      invariant WinManagers(Ok(total), pair, managers[..i]) == Ok(t)
    {
      assert managers[..i + 1][..i] == managers[..i];
      var manager := managers[i];
      var v := PairAmount(rows, dues, season, manager);
      assert WinManagers(Ok(total), pair, managers[..i + 1]) == WinStep(Ok(t), v, manager);
      if v.Err? {
        r := Err(v.error);
        WinManagersStops(Ok(total), pair, managers, i + 1);
        return;
      }
      t := AddInt(t, manager, v.value);
    }
    assert managers[..|managers|] == managers;
    r := Ok(t);
  }

  /** `plot_winnings`: the `total_winnings` it plots, or the exception raised. */
  method PlotWinnings(rows: seq<StandingsRow>, dues: map<int, Dues>) returns (r: Ledger)
    ensures r == Winnings(rows, dues)
  {
    var managers := LedgerManagers(rows);
    var seasons := LedgerSeasons(rows);
    ghost var r0: Ledger := Ok(FromKeys(managers, 0));
    var total := FromKeys(managers, 0);
    for i := 0 to |seasons|
      invariant WinSeasons(r0, Pairs(rows, dues), seasons[..i], managers) == Ok(total)
    {
      WinSeasonsNext(r0, Pairs(rows, dues), seasons, managers, i);
      var step := WinSeason(total, rows, dues, seasons[i], managers);
      if step.Err? {
        r := step;
        WinSeasonsStops(r0, Pairs(rows, dues), seasons, managers, i + 1);
        return;
      }
      total := step.value;
    }
    assert seasons[..|seasons|] == seasons;
    r := Ok(total);
  }

  // ---- plot_total_trades ----

  /** One bar of the trade-count chart. */
  datatype ManagerCount = ManagerCount(manager: string, count: nat)

  function IsTrader(m: string): TradeRow -> bool {
    (t: TradeRow) => t.trader == m
  }

  function IsTradee(m: string): TradeRow -> bool {
    (t: TradeRow) => t.tradee == m
  }

  /** `trader_counts.add(tradee_counts, fill_value=0)` at `m`, 0 after the
      reindex for a manager in neither column. */
  function TradeCount(trades: seq<TradeRow>, m: string): nat {
    CountIf(trades, IsTrader(m)) + CountIf(trades, IsTradee(m))
  }

  /** The series reindexed by `df['manager'].unique()`. */
  function TradeCounts(trades: seq<TradeRow>, managers: seq<string>): seq<ManagerCount> {
    seq(|managers|, i requires 0 <= i < |managers| => ManagerCount(managers[i], TradeCount(trades, managers[i])))
  }

  predicate Descending(s: seq<ManagerCount>) {
    forall i, j :: 0 <= i < j < |s| ==> s[i].count >= s[j].count
  }

  /** Place `x` before the first bar whose count it reaches. */
  function InsertByCount(x: ManagerCount, s: seq<ManagerCount>): seq<ManagerCount> {
    if s == [] then [x]
    else if x.count >= s[0].count then [x] + s
    else [s[0]] + InsertByCount(x, s[1..])
  }

  lemma {:induction false} InsertByCountMultiset(x: ManagerCount, s: seq<ManagerCount>)
    ensures multiset(InsertByCount(x, s)) == multiset(s) + multiset{x}
  {
    if s != [] && x.count < s[0].count {
      InsertByCountMultiset(x, s[1..]);
      assert s == [s[0]] + s[1..];
    }
  }

  lemma {:induction false} InsertByCountDescending(x: ManagerCount, s: seq<ManagerCount>)
    requires Descending(s)
    ensures Descending(InsertByCount(x, s))
    ensures |InsertByCount(x, s)| == |s| + 1
    ensures InsertByCount(x, s)[0] == x || (s != [] && InsertByCount(x, s)[0] == s[0])
  {
    if s != [] && x.count < s[0].count {
      var tail := s[1..];
      assert Descending(tail) by {
        forall i, j | 0 <= i < j < |tail| ensures tail[i].count >= tail[j].count {
          assert tail[i] == s[i + 1] && tail[j] == s[j + 1];
        }
      }
      InsertByCountDescending(x, tail);
      var t := InsertByCount(x, tail);
      assert t[0].count <= s[0].count;
      var r := [s[0]] + t;
      forall i, j | 0 <= i < j < |r| ensures r[i].count >= r[j].count {
        if i > 0 {
          assert r[i] == t[i - 1] && r[j] == t[j - 1];
        } else if j > 1 {
          assert r[j] == t[j - 1];
          assert t[0].count >= t[j - 1].count;
        }
      }
    }
  }

  /** `sort_values(ascending=False)`, here as a stable insertion sort. */
  function SortByCount(s: seq<ManagerCount>): (r: seq<ManagerCount>)
    ensures multiset(r) == multiset(s)
  {
    if s == [] then []
    else
      var t := SortByCount(s[1..]);
      InsertByCountMultiset(s[0], t);
      assert s == [s[0]] + s[1..];
      InsertByCount(s[0], t)
  }

  lemma {:induction false} SortByCountDescending(s: seq<ManagerCount>)
    ensures Descending(SortByCount(s))
  {
    if s != [] {
      SortByCountDescending(s[1..]);
      InsertByCountDescending(s[0], SortByCount(s[1..]));
    }
  }

  /** `all_counts` as plotted: one bar per manager of the weekly table. */
  function TotalTrades(trades: seq<TradeRow>, rows: seq<DataRow>): seq<ManagerCount> {
    SortByCount(TradeCounts(trades, Unique(ManagerColumn(rows))))
  }

  /** A manager with no trades counts 0, and only such a manager. */
  lemma TradeCountZero(trades: seq<TradeRow>, m: string)
    ensures TradeCount(trades, m) == 0 <==>
      forall i :: 0 <= i < |trades| ==> trades[i].trader != m && trades[i].tradee != m
  {
    CountIfZero(trades, IsTrader(m));
    CountIfZero(trades, IsTradee(m));
  }

  /** The bars are in descending order of count. */
  lemma TotalTradesDescending(trades: seq<TradeRow>, rows: seq<DataRow>)
    ensures Descending(TotalTrades(trades, rows))
  {
    SortByCountDescending(TradeCounts(trades, Unique(ManagerColumn(rows))));
  }

  /** Every manager of the weekly table gets one bar, carrying their
      appearances as trader plus as tradee, and no one else gets a bar. */
  lemma TotalTradesBars(trades: seq<TradeRow>, rows: seq<DataRow>)
    ensures var ms := Unique(ManagerColumn(rows));
      |TotalTrades(trades, rows)| == |ms|
    ensures var ms := Unique(ManagerColumn(rows));
      forall b :: b in TotalTrades(trades, rows) <==> b.manager in ms && b.count == TradeCount(trades, b.manager)
    ensures Distinct(TotalTrades(trades, rows))
  {
    var ms := Unique(ManagerColumn(rows));
    var c := TradeCounts(trades, ms);
    var r := TotalTrades(trades, rows);
    assert |r| == |multiset(r)| == |multiset(c)| == |c|;
    forall b ensures b in r <==> b.manager in ms && b.count == TradeCount(trades, b.manager) {
      calc {
        b in r;
        b in multiset(r);
        b in multiset(c);
        b in c;
      }
      if b.manager in ms {
        var i :| 0 <= i < |ms| && ms[i] == b.manager;
        assert b.count == TradeCount(trades, b.manager) ==> c[i] == b;
      }
    }
    assert Distinct(c) by {
      forall i, j | 0 <= i < j < |c| ensures c[i] != c[j] {
        assert c[i].manager == ms[i] && c[j].manager == ms[j];
      }
    }
    DistinctByMultiset(c, r);
  }

  // ---- plot_trade_mapping ----

  /** The undirected edge a trade adds: its two parties (one, for a trade
      with oneself). */
  function EdgeOf(t: TradeRow): set<string> {
    {t.trader, t.tradee}
  }

  /** The mask "this trade is on edge `e`". */
  function OnEdge(e: set<string>): TradeRow -> bool {
    (t: TradeRow) => EdgeOf(t) == e
  }

  /** The mask "a trade between `a` and `b`, in either role". */
  function Between(a: string, b: string): TradeRow -> bool {
    (t: TradeRow) => (t.trader == a && t.tradee == b) || (t.trader == b && t.tradee == a)
  }

  /** `G.add_node(x)`: a node already present stays where it is. */
  function AddNode(nodes: seq<string>, x: string): (r: seq<string>)
    ensures forall y :: y in r <==> y in nodes || y == x
  {
    if x in nodes then nodes else nodes + [x]
  }

  /** `G.add_nodes_from(xs)` */
  function AddNodes(nodes: seq<string>, xs: seq<string>): seq<string> {
    if xs == [] then nodes else AddNode(AddNodes(nodes, xs[..|xs| - 1]), xs[|xs| - 1])
  }

  /** The edge weights after the loop over `zip(df['trader'], df['tradee'])`. */
  function EdgeWeights(trades: seq<TradeRow>): Dict<set<string>, int> {
    if trades == [] then Empty()
    else AddInt(EdgeWeights(trades[..|trades| - 1]), EdgeOf(trades[|trades| - 1]), 1)
  }

  /** The nodes the loop's `add_edge` calls create, in order. */
  function EdgeNodes(trades: seq<TradeRow>): seq<string> {
    if trades == [] then []
    else
      var t := trades[|trades| - 1];
      AddNode(AddNode(EdgeNodes(trades[..|trades| - 1]), t.trader), t.tradee)
  }

  /** The nodes of `G` once every manager has been added. */
  function GraphNodes(trades: seq<TradeRow>, managers: seq<string>): seq<string> {
    AddNodes(EdgeNodes(trades), managers)
  }

  /** A trade lies on the edge `{a, b}` exactly when it is between `a` and
      `b`, whichever of them traded. */
  lemma EdgeOfEither(t: TradeRow, a: string, b: string)
    ensures OnEdge({a, b})(t) <==> Between(a, b)(t)
  {
    if EdgeOf(t) == {a, b} {
      assert a in EdgeOf(t) && b in EdgeOf(t);
      assert t.trader in {a, b} && t.tradee in {a, b};
    }
  }

  /** The weight of edge `e` is the number of trades on it. */
  lemma {:induction false} EdgeWeightsCount(trades: seq<TradeRow>, e: set<string>)
    ensures GetOr(EdgeWeights(trades), e, 0) == CountIf(trades, OnEdge(e))
  {
    if trades != [] {
      EdgeWeightsCount(trades[..|trades| - 1], e);
    }
  }

  /** The weight between two managers counts the trades between them in
      either order. */
  lemma EdgeWeightBetween(trades: seq<TradeRow>, a: string, b: string)
    ensures GetOr(EdgeWeights(trades), {a, b}, 0) == CountIf(trades, Between(a, b))
  {
    EdgeWeightsCount(trades, {a, b});
    forall t: TradeRow {
      EdgeOfEither(t, a, b);
    }
    CountIfMonotone(trades, OnEdge({a, b}), Between(a, b));
    CountIfMonotone(trades, Between(a, b), OnEdge({a, b}));
  }

  /** The edge weights sum to the number of trades. */
  lemma {:induction false} EdgeWeightsSum(trades: seq<TradeRow>)
    ensures Sum(EdgeWeights(trades)) == |trades|
  {
    if trades == [] {
    } else {
      var n := |trades| - 1;
      EdgeWeightsSum(trades[..n]);
      SumAddInt(EdgeWeights(trades[..n]), EdgeOf(trades[n]), 1);
    }
  }

  /** Every edge is that of some trade. */
  lemma {:induction false} EdgeWeightsEdges(trades: seq<TradeRow>)
    ensures forall e :: e in EdgeWeights(trades).vals ==> exists i :: 0 <= i < |trades| && EdgeOf(trades[i]) == e
  {
    if trades != [] {
      var n := |trades| - 1;
      EdgeWeightsEdges(trades[..n]);
      assert forall i :: 0 <= i < n ==> trades[..n][i] == trades[i];
      assert EdgeOf(trades[n]) == EdgeOf(trades[n]);
    }
  }

  /** Hence every edge has weight at least one. */
  lemma EdgeWeightsPositive(trades: seq<TradeRow>, e: set<string>)
    requires e in EdgeWeights(trades).vals
    ensures EdgeWeights(trades).vals[e] >= 1
  {
    EdgeWeightsEdges(trades);
    var i :| 0 <= i < |trades| && EdgeOf(trades[i]) == e;
    EdgeWeightsCount(trades, e);
    CountIfZero(trades, OnEdge(e));
  }

  lemma {:induction false} AddNodesMeaning(nodes: seq<string>, xs: seq<string>)
    ensures forall y :: y in AddNodes(nodes, xs) <==> y in nodes || y in xs
  {
    if xs != [] {
      var n := |xs| - 1;
      AddNodesMeaning(nodes, xs[..n]);
      assert xs == xs[..n] + [xs[n]];
    }
  }

  lemma {:induction false} AddNodesDistinct(nodes: seq<string>, xs: seq<string>)
    requires Distinct(nodes)
    ensures Distinct(AddNodes(nodes, xs))
  {
    if xs != [] {
      AddNodesDistinct(nodes, xs[..|xs| - 1]);
      AddNodeDistinct(AddNodes(nodes, xs[..|xs| - 1]), xs[|xs| - 1]);
    }
  }

  lemma AddNodeDistinct(nodes: seq<string>, x: string)
    requires Distinct(nodes)
    ensures Distinct(AddNode(nodes, x))
  {
  }

  lemma {:induction false} EdgeNodesDistinct(trades: seq<TradeRow>)
    ensures Distinct(EdgeNodes(trades))
  {
    if trades != [] {
      var n := |trades| - 1;
      var t := trades[n];
      EdgeNodesDistinct(trades[..n]);
      AddNodeDistinct(EdgeNodes(trades[..n]), t.trader);
      AddNodeDistinct(AddNode(EdgeNodes(trades[..n]), t.trader), t.tradee);
    }
  }

  /** The mask "`y` is a party of the trade". */
  function IsParty(y: string): TradeRow -> bool {
    (t: TradeRow) => t.trader == y || t.tradee == y
  }

  lemma {:induction false} EdgeNodesMeaning(trades: seq<TradeRow>, y: string)
    ensures y in EdgeNodes(trades) <==> CountIf(trades, IsParty(y)) > 0
  {
    if trades != [] {
      EdgeNodesMeaning(trades[..|trades| - 1], y);
    }
  }

  /** The graph's nodes are every trading party and every manager, each once. */
  lemma GraphNodesMeaning(trades: seq<TradeRow>, managers: seq<string>)
    ensures Distinct(GraphNodes(trades, managers))
    ensures forall y :: y in GraphNodes(trades, managers) <==>
      y in managers || exists i :: 0 <= i < |trades| && (trades[i].trader == y || trades[i].tradee == y)
  {
    EdgeNodesDistinct(trades);
    forall y ensures y in EdgeNodes(trades) <==> exists i :: 0 <= i < |trades| && (trades[i].trader == y || trades[i].tradee == y) {
      EdgeNodesMeaning(trades, y);
      CountIfZero(trades, IsParty(y));
    }
    AddNodesMeaning(EdgeNodes(trades), managers);
    AddNodesDistinct(EdgeNodes(trades), managers);
  }

  /** The endpoints of an existing edge are already nodes, so `add_edge`
      is needed only for a new edge. */
  lemma {:induction false} EdgeWeightsNodes(trades: seq<TradeRow>, e: set<string>)
    requires e in EdgeWeights(trades).vals
    ensures forall x :: x in e ==> x in EdgeNodes(trades)
  {
    var n := |trades| - 1;
    var t := trades[n];
    if e in EdgeWeights(trades[..n]).vals {
      EdgeWeightsNodes(trades[..n], e);
    }
  }

  /** The graph-building loop of `plot_trade_mapping`: `has_edge`, then
      either `weight += 1` or `add_edge(..., weight=1)`. */
  method TradeEdges(trades: seq<TradeRow>) returns (weights: Dict<set<string>, int>, nodes: seq<string>)
    ensures weights == EdgeWeights(trades)
    ensures nodes == EdgeNodes(trades)
  {
    weights := Empty();
    nodes := [];
    for i := 0 to |trades|
      invariant weights == EdgeWeights(trades[..i])
      invariant nodes == EdgeNodes(trades[..i])
    {
      assert trades[..i + 1][..i] == trades[..i];
      var trader := trades[i].trader;
      var tradee := trades[i].tradee;
      var e := {trader, tradee};
      if e in weights.vals {
        EdgeWeightsNodes(trades[..i], e);
        weights := Put(weights, e, weights.vals[e] + 1);
      } else {
        weights := Put(weights, e, 1);
        nodes := AddNode(AddNode(nodes, trader), tradee);
      }
    }
    assert trades[..|trades|] == trades;
  }

  /** The graph, then `G.add_nodes_from(managers)`. */
  method TradeGraph(trades: seq<TradeRow>, managers: seq<string>) returns (weights: Dict<set<string>, int>, nodes: seq<string>)
    ensures weights == EdgeWeights(trades)
    ensures nodes == GraphNodes(trades, managers)
  {
    weights, nodes := TradeEdges(trades);
    ghost var edgeNodes := nodes;
    for i := 0 to |managers|
      invariant nodes == AddNodes(edgeNodes, managers[..i])
    {
      assert managers[..i + 1][..i] == managers[..i];
      nodes := AddNode(nodes, managers[i]);
    }
    assert managers[..|managers|] == managers;
  }

  /** `plot_trade_mapping`'s graph over the managers of the weekly table. */
  method PlotTradeMapping(trades: seq<TradeRow>, rows: seq<DataRow>) returns (weights: Dict<set<string>, int>, nodes: seq<string>)
    ensures weights == EdgeWeights(trades)
    ensures nodes == GraphNodes(trades, Unique(ManagerColumn(rows)))
  {
    weights, nodes := TradeGraph(trades, Unique(ManagerColumn(rows)));
  }
}
