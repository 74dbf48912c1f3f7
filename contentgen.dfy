/** `ContentGenerator.generate_chart_data`: the per-manager playoff and
    championship counts written to playoffs.json, from the rows of
    standings.csv. */
module ContentGen {
  import opened PySeq
  import opened Records
  import opened Tally
  import opened Save

  /** One object of playoffs.json. */
  datatype ChartEntry = ChartEntry(
    manager: string,
    playoffAppearances: nat,
    playoffByes: nat,
    championshipAppearances: nat,
    championships: nat)

  /** The mask `df["manager"] == m`. */
  function IsManager(m: string): StandingsRow -> bool {
    (x: StandingsRow) => x.manager == m
  }

  /** The mask `df_slice["seed"] <= k`. */
  function SeedAtMost(k: int): StandingsRow -> bool {
    (x: StandingsRow) => x.stats.seed <= k
  }

  /** The mask `df_slice["rank"] <= k`. */
  function RankAtMost(k: int): StandingsRow -> bool {
    (x: StandingsRow) => x.stats.rank <= k
  }

  /** The mask `df_slice["rank"] == k`. */
  function RankIs(k: int): StandingsRow -> bool {
    (x: StandingsRow) => x.stats.rank == k
  }

  /** `sorted(df["manager"].unique())` */
  function ChartManagers(rows: seq<StandingsRow>): seq<string> {
    SortedUnique(StandingsManagerColumn(rows))
  }

  /** The entry of manager `m`, counted over their slice of the table. */
  function EntryFor(rows: seq<StandingsRow>, m: string): ChartEntry {
    var sl := Filter(rows, IsManager(m));
    ChartEntry(m, CountIf(sl, SeedAtMost(6)), CountIf(sl, SeedAtMost(2)),
               CountIf(sl, RankAtMost(2)), CountIf(sl, RankIs(1)))
  }

  /** Each count is the number of the manager's standings rows (one per
      season) that meet its threshold. */
  lemma EntryCounts(rows: seq<StandingsRow>, m: string)
    ensures var e := EntryFor(rows, m);
      && e.manager == m
      && e.playoffAppearances == CountIf(rows, Both(IsManager(m), SeedAtMost(6)))
      && e.playoffByes == CountIf(rows, Both(IsManager(m), SeedAtMost(2)))
      && e.championshipAppearances == CountIf(rows, Both(IsManager(m), RankAtMost(2)))
      && e.championships == CountIf(rows, Both(IsManager(m), RankIs(1)))
  {
    CountIfFilter(rows, IsManager(m), SeedAtMost(6));
    CountIfFilter(rows, IsManager(m), SeedAtMost(2));
    CountIfFilter(rows, IsManager(m), RankAtMost(2));
    CountIfFilter(rows, IsManager(m), RankIs(1));
  }

  /** A bye implies a playoff appearance and a title a championship
      appearance, and no count exceeds the manager's number of rows. */
  lemma EntryBounds(rows: seq<StandingsRow>, m: string)
    ensures var e := EntryFor(rows, m);
      && e.playoffByes <= e.playoffAppearances
      && e.championships <= e.championshipAppearances
      && e.playoffAppearances <= CountIf(rows, IsManager(m))
      && e.championshipAppearances <= CountIf(rows, IsManager(m))
  {
    var sl := Filter(rows, IsManager(m));
    CountIfMonotone(sl, SeedAtMost(2), SeedAtMost(6));
    CountIfMonotone(sl, RankIs(1), RankAtMost(2));
    FilterMeaning(rows, IsManager(m));
  }

  /** The managers are in strictly ascending order, hence each once. */
  lemma ChartManagersOrder(rows: seq<StandingsRow>)
    ensures var ms := ChartManagers(rows);
      forall i, j :: 0 <= i < j < |ms| ==> LexLe(ms[i], ms[j]) && ms[i] != ms[j]
  {
    var ms := ChartManagers(rows);
    SortedUniqueSorted(StandingsManagerColumn(rows));
  }

  /** A list with the same members as the manager column names exactly
      the managers of the table's rows. */
  lemma ColumnMembers(rows: seq<StandingsRow>, ms: seq<string>)
    requires forall x :: x in ms <==> x in StandingsManagerColumn(rows)
    ensures forall i :: 0 <= i < |ms| ==> exists k :: 0 <= k < |rows| && rows[k].manager == ms[i]
    ensures forall k :: 0 <= k < |rows| ==> exists i :: 0 <= i < |ms| && ms[i] == rows[k].manager
  {
    var col := StandingsManagerColumn(rows);
    forall i | 0 <= i < |ms| ensures exists k :: 0 <= k < |rows| && rows[k].manager == ms[i] {
      assert ms[i] in col;
      var j :| 0 <= j < |col| && col[j] == ms[i];
      assert rows[j].manager == ms[i];
      assert exists k :: 0 <= k < |rows| && rows[k].manager == ms[i];
    }
    forall k | 0 <= k < |rows| ensures exists i :: 0 <= i < |ms| && ms[i] == rows[k].manager {
      assert col[k] in ms;
      var j :| 0 <= j < |ms| && ms[j] == col[k];
      assert ms[j] == rows[k].manager;
      assert exists i :: 0 <= i < |ms| && ms[i] == rows[k].manager;
    }
  }

  /** The managers are exactly those of the table's rows. */
  lemma ChartManagersCover(rows: seq<StandingsRow>)
    ensures var ms := ChartManagers(rows);
      forall i :: 0 <= i < |ms| ==> exists k :: 0 <= k < |rows| && rows[k].manager == ms[i]
    ensures var ms := ChartManagers(rows);
      forall k :: 0 <= k < |rows| ==> exists i :: 0 <= i < |ms| && ms[i] == rows[k].manager
  {
    ColumnMembers(rows, ChartManagers(rows));
  }

  /** `generate_chart_data`: the list it dumps to playoffs.json. */
  method GenerateChartData(rows: seq<StandingsRow>) returns (data: seq<ChartEntry>)
    ensures |data| == |ChartManagers(rows)|
    ensures forall i :: 0 <= i < |data| ==> data[i] == EntryFor(rows, ChartManagers(rows)[i])
  {
    var managers := ChartManagers(rows);
    data := [];
    for i := 0 to |managers|
      invariant |data| == i
      invariant forall k :: 0 <= k < i ==> data[k] == EntryFor(rows, managers[k])
    {
      var slice := Filter(rows, IsManager(managers[i]));
      data := data + [ChartEntry(managers[i], CountIf(slice, SeedAtMost(6)), CountIf(slice, SeedAtMost(2)),
                                 CountIf(slice, RankAtMost(2)), CountIf(slice, RankIs(1)))];
    }
  }
}
