/** The `Query` object: its five tables, the league-name resolution of
    `run_query`, `parse_query` with `extract_matchup_data`, the season loop
    of `query_seasons`, and `save_data` with `apply_manager_aliases`. The
    provider's responses are inputs; the alias file is its parsed content. */
module QueryEngine {
  import opened PySeq
  import opened PyDict
  import opened PyStr
  import opened Records
  import opened Roster
  import opened Leagues
  import opened Parse
  import opened Save

  /** The seasons the program queries: 2018 to 2024, inclusive. */
  function Seasons(): (r: seq<int>)
    ensures |r| == 7 && forall i :: 0 <= i < 7 ==> r[i] == 2018 + i
  {
    seq(7, i => 2018 + i)
  }

  /** The tables of a fresh `Query`. */
  function InitialTables(): Tables {
    Tables(None, Empty(), Empty(), Empty(), Empty())
  }

  /** One pass of the season loop: `run_query` then `parse_query`. */
  function SeasonStep(t: Tables, p: Provider, season: int): (Outcome<Error>, Tables) {
    var r := Resolve(t.leagueName, season, p.leagues(season));
    var t1 := t.(leagueName := r.name);
    match r.id
    case Err(e) => (Fail(e), t1)
    case Ok(id) => ParseLeague(t1, p.league(season, id))
  }

  /** The season loop of `query_seasons` over `seasons`, in order, up to
      the first exception. */
  function RunSeasons(t: Tables, p: Provider, seasons: seq<int>): (Outcome<Error>, Tables) {
    if seasons == [] then (Pass, t)
    else
      var r := RunSeasons(t, p, seasons[..|seasons| - 1]);
      if r.0.Fail? then r else SeasonStep(r.1, p, seasons[|seasons| - 1])
  }

  lemma {:induction false} RunSeasonsStops(t: Tables, p: Provider, seasons: seq<int>, i: nat)
    requires i <= |seasons| && RunSeasons(t, p, seasons[..i]).0.Fail?
    ensures RunSeasons(t, p, seasons) == RunSeasons(t, p, seasons[..i])
  {
    if i < |seasons| {
      var n := |seasons| - 1;
      assert seasons[..n][..i] == seasons[..i];
      RunSeasonsStops(t, p, seasons[..n], i);
      var r := RunSeasons(t, p, seasons[..n]);
      assert r.0.Fail?;
      assert RunSeasons(t, p, seasons) == r by {
        assert seasons[..|seasons| - 1] == seasons[..n];
      }
    } else {
      assert seasons[..i] == seasons;
    }
  }

  /** After a season that raised nothing, the loop goes on with the next one. */
  lemma RunSeasonsNext(t: Tables, p: Provider, seasons: seq<int>, i: nat)
    requires i < |seasons| && RunSeasons(t, p, seasons[..i]).0.Pass?
    ensures RunSeasons(t, p, seasons[..i + 1]) == SeasonStep(RunSeasons(t, p, seasons[..i]).1, p, seasons[i])
  {
    assert seasons[..i + 1][..i] == seasons[..i];
  }

  /** Once learned, the league name is never changed. */
  lemma {:induction false} NameLearnedOnce(t: Tables, p: Provider, seasons: seq<int>)
    requires t.leagueName.Some?
    ensures RunSeasons(t, p, seasons).1.leagueName == t.leagueName
  {
    if seasons != [] {
      NameLearnedOnce(t, p, seasons[..|seasons| - 1]);
    }
  }

  /** A first season listing exactly one league teaches its name, and its
      id is then the one queried. */
  lemma NameFromSingleLeague(t: Tables, p: Provider, season: int)
    requires t.leagueName.None? && |p.leagues(season)| == 1
    ensures var l := p.leagues(season)[0];
      SeasonStep(t, p, season) == ParseLeague(t.(leagueName := Some(l.name)), p.league(season, l.leagueId))
  {
  }

  /** `parse_query` does not touch the league name. */
  lemma ParseKeepsName(t: Tables, d: LeagueData)
    ensures ParseLeague(t, d).1.leagueName == t.leagueName
  {
  }

  /** A literal `str.replace` of `pat` by `rep` on every cell of one column, in place. */
  method ReplaceInColumn(col: array<string>, pat: string, rep: string)
    modifies col
    ensures col[..] == ReplaceEach(old(col[..]), pat, rep)
  {
    for i := 0 to col.Length
      invariant forall k :: 0 <= k < i ==> col[k] == ReplaceAll(old(col[k]), pat, rep)
      invariant forall k :: i <= k < col.Length ==> col[k] == old(col[k])
    {
      col[i] := ReplaceAll(col[i], pat, rep);
    }
  }

  /** `apply_manager_aliases` on a frame given by its `manager` column and,
      when `hasOpponent`, its `opponent` column; `file` is the parsed
      alias file, None when it does not exist. */
  method ApplyManagerAliases(file: Option<Aliases>, manager: array<string>, opponent: array<string>, hasOpponent: bool)
    returns (o: Outcome<Error>)
    requires manager != opponent
    modifies manager, opponent
    ensures o == AliasOutcome(file, manager.Length)
    ensures manager[..] == if o.Pass? then AliasColumn(old(manager[..]), file.value) else old(manager[..])
    ensures opponent[..] == if o.Pass? && hasOpponent then AliasColumn(old(opponent[..]), file.value) else old(opponent[..])
  {
    if file.None? {
      return Fail(AliasFileMissing);
    }
    var aliases := file.value;
    for j := 0 to |aliases.keys|
      invariant manager[..] == AliasColumnBy(old(manager[..]), aliases.keys[..j], aliases.vals)
      invariant opponent[..] == if hasOpponent then AliasColumnBy(old(opponent[..]), aliases.keys[..j], aliases.vals)
        else old(opponent[..])
      invariant j > 0 ==> manager.Length > 0
    {
      if manager.Length == 0 {
        return Fail(MissingManagerColumn);
      }
      var name := aliases.keys[j];
      var alias := aliases.vals[name];
      AliasColumnStep(old(manager[..]), aliases.keys, aliases.vals, j);
      ReplaceInColumn(manager, name, alias);
      if hasOpponent {
        AliasColumnStep(old(opponent[..]), aliases.keys, aliases.vals, j);
        ReplaceInColumn(opponent, name, alias);
      }
    }
    assert aliases.keys[..|aliases.keys|] == aliases.keys;
    return Pass;
  }

  /** `apply_manager_aliases` on the weekly table, through its two name columns. */
  method AliasData(file: Option<Aliases>, rows: seq<DataRow>) returns (o: Outcome<Error>, data: seq<DataRow>)
    ensures o == AliasOutcome(file, |rows|)
    ensures o.Pass? ==> data == AliasDataRows(rows, file.value)
  {
    var manager := new string[|rows|](i requires 0 <= i < |rows| => rows[i].manager);
    var opponent := new string[|rows|](i requires 0 <= i < |rows| => rows[i].stats.opponent);
    assert manager[..] == ManagerColumn(rows);
    assert opponent[..] == OpponentColumn(rows);
    o := ApplyManagerAliases(file, manager, opponent, true);
    data := rows;
    if o.Pass? {
      AliasByColumns(rows, file.value);
      data := WithColumns(rows, manager[..], opponent[..]);
    }
  }

  /** `apply_manager_aliases` on the standings table, which has no opponent column. */
  method AliasStandings(file: Option<Aliases>, rows: seq<StandingsRow>) returns (o: Outcome<Error>, data: seq<StandingsRow>)
    ensures o == AliasOutcome(file, |rows|)
    ensures o.Pass? ==> data == AliasStandingsRows(rows, file.value)
  {
    var manager := new string[|rows|](i requires 0 <= i < |rows| => rows[i].manager);
    var none := new string[0];
    assert manager[..] == StandingsManagerColumn(rows);
    o := ApplyManagerAliases(file, manager, none, false);
    data := rows;
    if o.Pass? {
      AliasStandingsByColumn(rows, file.value);
      data := WithManagers(rows, manager[..]);
    }
  }

  class Query {
    var leagueName: Option<string>
    var records: RecordMap
    var winners: WinnerMap
    var standings: StandingsMap
    var transactions: TradeMap

    function State(): Tables
      reads this
    {
      Tables(leagueName, records, winners, standings, transactions)
    }

    constructor()
      ensures State() == InitialTables()
    {
      leagueName := None;
      records := Empty();
      winners := Empty();
      standings := Empty();
      transactions := Empty();
    }

    /** The league-name resolution of `run_query` for `season`, given the
        leagues listed for its game key. */
    method RunQuery(season: int, leagues: seq<League>) returns (leagueId: Result<string, Error>)
      modifies this
      ensures leagueId == Resolve(old(leagueName), season, leagues).id
      ensures State() == old(State()).(leagueName := Resolve(old(leagueName), season, leagues).name)
    {
      if leagueName.None? {
        if |leagues| > 1 {
          return Err(AmbiguousLeague(season));
        }
        if |leagues| == 0 {
          return Err(NoLeagues(season));
        }
        leagueName := Some(leagues[0].name);
      }
      var id := FindLeagueId(leagues, leagueName.value);
      if id.None? {
        return Err(NoLeagueId(season));
      }
      return Ok(id.value);
    }

    /** Lines 133-141. */
    method RecordTransactions(season: int, teams: seq<Team>, ts: seq<Transaction>) returns (o: Outcome<Error>)
      modifies this
      ensures (o, transactions) == RecordTrades(old(transactions), season, teams, ts)
      ensures State() == old(State()).(transactions := transactions)
    {
      o := Pass;
      for i := 0 to |ts|
        invariant RecordTrades(old(transactions), season, teams, ts[..i]) == (Pass, transactions)
        invariant State() == old(State()).(transactions := transactions)
      {
        assert ts[..i + 1][..i] == ts[..i];
        var transaction := ts[i];
        if transaction.kind == "trade" {
          var tk0 := TeamIndex(transaction.tradeeTeamKey);
          if tk0.None? {
            o := Fail(BadTeamKey(transaction.tradeeTeamKey));
            RecordTradesStops(old(transactions), season, teams, ts, i + 1);
            return;
          }
          var tk1 := TeamIndex(transaction.traderTeamKey);
          if tk1.None? {
            o := Fail(BadTeamKey(transaction.traderTeamKey));
            RecordTradesStops(old(transactions), season, teams, ts, i + 1);
            return;
          }
          var list := GetOr(transactions, season, []);
          if !IndexOk(|teams|, tk0.value) {
            transactions := Put(transactions, season, list);
            o := Fail(TeamIndexOutOfRange(tk0.value));
            RecordTradesStops(old(transactions), season, teams, ts, i + 1);
            return;
          }
          if !IndexOk(|teams|, tk1.value) {
            transactions := Put(transactions, season, list);
            o := Fail(TeamIndexOutOfRange(tk1.value));
            RecordTradesStops(old(transactions), season, teams, ts, i + 1);
            return;
          }
          var tradee := teams[Position(|teams|, tk0.value)].nickname;
          var trader := teams[Position(|teams|, tk1.value)].nickname;
          transactions := Put(transactions, season, list + [Trade(tradee, trader)]);
        }
      }
      assert ts[..|ts|] == ts;
    }

    /** Lines 143-152. */
    method RecordStandingsTable(season: int, st: seq<StandingsTeam>)
      modifies this
      ensures standings == RecordStandings(old(standings), season, st)
      ensures State() == old(State()).(standings := standings)
    {
      for i := 0 to |st|
        invariant standings == RecordStandings(old(standings), season, st[..i])
        invariant State() == old(State()).(standings := standings)
      {
        assert st[..i + 1][..i] == st[..i];
        var team := st[i];
        var manager := team.nickname;
        var table := GetOr(standings, season, Empty());
        standings := Put(standings, season, Put(table, manager, StatsOf(team)));
      }
      assert st[..|st|] == st;
    }

    /** `extract_matchup_data`: `me`'s entry for `week`, with its roster summarised. */
    method ExtractMatchupData(season: int, week: int, me: Team, opp: Team, roster: (nat, int) -> seq<Player>)
      modifies this
      ensures records == ExtractMatchup(old(records), season, week, me, opp, roster)
      ensures State() == old(State()).(records := records)
    {
      var players := roster(me.teamId, week);
      var summary := AggregateRoster(players, week);
      records := PutRecord(records, season, week, me.nickname, MatchupStats(me, opp, summary));
    }

    /** Lines 163-182: the matchups of one week's scoreboard. */
    method RecordScoreboard(season: int, week: int, ms: seq<Matchup>, roster: (nat, int) -> seq<Player>)
      returns (o: Outcome<Error>)
      modifies this
      ensures (o, records) == RecordMatchups(old(records), season, week, ms, roster)
      ensures State() == old(State()).(records := records)
    {
      o := Pass;
      for i := 0 to |ms|
        invariant RecordMatchups(old(records), season, week, ms[..i], roster) == (Pass, records)
        invariant State() == old(State()).(records := records)
      {
        RecordMatchupsNext(old(records), season, week, ms, roster, i);
        var matchup := ms[i];
        if matchup.isTied {
          o := Fail(Tie(season, week, matchup.team1.nickname, matchup.team2.nickname));
          RecordMatchupsStops(old(records), season, week, ms, roster, i + 1);
          return;
        }
        ExtractMatchupData(season, week, matchup.team1, matchup.team2, roster);
        ExtractMatchupData(season, week, matchup.team2, matchup.team1, roster);
      }
      assert ms[..|ms|] == ms;
    }

    /** Lines 155-182: weeks 1 to the current week, skipping missing scoreboards. */
    method RecordAllWeeks(d: LeagueData) returns (o: Outcome<Error>)
      modifies this
      ensures (o, records) == RecordWeeks(old(records), d, d.currentWeek)
      ensures State() == old(State()).(records := records)
    {
      o := Pass;
      var week := 1;
      while week <= d.currentWeek
        invariant o == Pass
        invariant 1 <= week <= if d.currentWeek >= 0 then d.currentWeek + 1 else 1
        invariant RecordWeeks(old(records), d, week - 1) == (Pass, records)
        invariant State() == old(State()).(records := records)
        decreases d.currentWeek - week
      {
        var scoreboard := d.scoreboard(week);
        if scoreboard.Some? {
          o := RecordScoreboard(d.season, week, scoreboard.value, d.roster);
          if o.Fail? {
            RecordWeeksStops(old(records), d, week, d.currentWeek);
            return;
          }
        }
        week := week + 1;
      }
      if d.currentWeek < 1 {
        assert RecordWeeks(old(records), d, d.currentWeek) == RecordWeeks(old(records), d, 0);
      }
    }

    /** Lines 129-131: the first three places of the final standings. */
    method RecordPodium(season: int, st: seq<StandingsTeam>) returns (o: Outcome<Error>)
      modifies this
      ensures (o, winners) == RecordWinners(old(winners), season, st)
      ensures State() == old(State()).(winners := winners)
    {
      if |st| < 1 {
        return Fail(ShortStandings(season));
      }
      winners := PutPlace(winners, season, "1st", st[0].nickname);
      if |st| < 2 {
        return Fail(ShortStandings(season));
      }
      winners := PutPlace(winners, season, "2nd", st[1].nickname);
      if |st| < 3 {
        return Fail(ShortStandings(season));
      }
      winners := PutPlace(winners, season, "3rd", st[2].nickname);
      o := Pass;
    }

    /** `parse_query` on one season's league data. */
    method ParseQuery(d: LeagueData) returns (o: Outcome<Error>)
      modifies this
      ensures (o, State()) == ParseLeague(old(State()), d)
    {
      var season := d.season;
      o := RecordPodium(season, d.standings);
      if o.Fail? {
        return;
      }
      o := RecordTransactions(season, d.teams, d.transactions);
      if o.Fail? {
        return;
      }
      RecordStandingsTable(season, d.standings);
      o := RecordAllWeeks(d);
    }

    /** `save_data`: the three files, or how far it got. */
    method SaveData(file: Option<Aliases>) returns (saved: Saved)
      ensures saved == SaveSpec(State(), file)
    {
      var rows := FlattenRecords(records);
      var o, data := AliasData(file, rows);
      if o.Fail? {
        return Saved(o, None, None, None);
      }
      var trades := CollectTrades(records.keys, transactions, file.value);
      var standingRows := FlattenStandingsTable(standings);
      var aliased;
      o, aliased := AliasStandings(file, standingRows);
      if o.Fail? {
        return Saved(o, Some(data), Some(trades), None);
      }
      saved := Saved(Pass, Some(data), Some(trades), Some(aliased));
    }

    /** The season loop of `query_seasons` (lines 265-270). */
    method QueryAllSeasons(p: Provider) returns (o: Outcome<Error>)
      modifies this
      ensures (o, State()) == RunSeasons(old(State()), p, Seasons())
    {
      var seasons := Seasons();
      o := Pass;
      for i := 0 to |seasons|
        invariant o == Pass
        invariant RunSeasons(old(State()), p, seasons[..i]) == (Pass, State())
      {
        ghost var before := State();
        RunSeasonsNext(old(State()), p, seasons, i);
        o := QuerySeason(p, seasons[i]);
        assert (o, State()) == SeasonStep(before, p, seasons[i]);
        if o.Fail? {
          RunSeasonsStops(old(State()), p, seasons, i + 1);
          return;
        }
      }
      assert seasons[..|seasons|] == seasons;
    }

    /** One season: `run_query`, then `parse_query` on the league it found. */
    method QuerySeason(p: Provider, season: int) returns (o: Outcome<Error>)
      modifies this
      ensures (o, State()) == SeasonStep(old(State()), p, season)
    {
      var leagueId := RunQuery(season, p.leagues(season));
      if leagueId.Err? {
        return Fail(leagueId.error);
      }
      o := ParseQuery(p.league(season, leagueId.value));
    }

    /** `query_seasons`: every season of the range in order, then `save_data`
        when no season raised. */
    method QuerySeasons(p: Provider, file: Option<Aliases>) returns (o: Outcome<Error>, saved: Option<Saved>)
      modifies this
      ensures (o, State()) == RunSeasons(old(State()), p, Seasons())
      ensures saved == if o.Pass? then Some(SaveSpec(State(), file)) else None
    {
      o := QueryAllSeasons(p);
      if o.Fail? {
        return o, None;
      }
      var s := SaveData(file);
      saved := Some(s);
    }
  }
}
