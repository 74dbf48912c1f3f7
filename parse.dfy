/** What `Query.parse_query` and `Query.extract_matchup_data` do to the
    engine's tables, as functions from the tables before to the outcome and
    the tables after. A raised exception (or the `exit(2)` on a tie) stops
    the run; the tables then hold whatever was written before it. */
module Parse {
  import opened PySeq
  import opened PyDict
  import opened PyStr
  import opened Records
  import opened Roster

  /** `managers_record_map[season][week][manager]` */
  type WeekMap = Dict<string, WeekStats>
  type SeasonMap = Dict<int, WeekMap>
  type RecordMap = Dict<int, SeasonMap>

  /** `winners_map[season][place]` */
  type WinnerMap = Dict<int, Dict<string, string>>

  /** `standings_map[season][manager]` */
  type StandingsMap = Dict<int, Dict<string, StandingStats>>

  /** `transactions_map[season]` */
  type TradeMap = Dict<int, seq<Trade>>

  /** Every field of a `Query` object. */
  datatype Tables = Tables(
    leagueName: Option<string>,
    records: RecordMap,
    winners: WinnerMap,
    standings: StandingsMap,
    transactions: TradeMap)

  // ---- final standings: the three winners ----

  /** `winners_map[season][place] = nickname`, creating the season's entry on first use. */
  function PutPlace(w: WinnerMap, season: int, place: string, nickname: string): WinnerMap {
    Put(w, season, Put(GetOr(w, season, Empty()), place, nickname))
  }

  /** `winners_map[season][place]`, if it was written. */
  function Place(w: WinnerMap, season: int, place: string): Option<string> {
    if season in w.vals && place in w.vals[season].vals then Some(w.vals[season].vals[place]) else None
  }

  /** The three assignments of lines 129-131: `standings[k]` raises
      IndexError for a short list, after the places before it were written. */
  function RecordWinners(w: WinnerMap, season: int, st: seq<StandingsTeam>): (Outcome<Error>, WinnerMap) {
    if |st| == 0 then (Fail(ShortStandings(season)), w)
    else
      var w1 := PutPlace(w, season, "1st", st[0].nickname);
      if |st| == 1 then (Fail(ShortStandings(season)), w1)
      else
        var w2 := PutPlace(w1, season, "2nd", st[1].nickname);
        if |st| == 2 then (Fail(ShortStandings(season)), w2)
        else (Pass, PutPlace(w2, season, "3rd", st[2].nickname))
  }

  lemma PlacesDistinct()
    ensures "1st" != "2nd" && "1st" != "3rd" && "2nd" != "3rd"
  {
    assert "1st"[0] != "2nd"[0] && "1st"[0] != "3rd"[0] && "2nd"[0] != "3rd"[0];
  }

  /** The run goes on exactly when there are at least three standings entries. */
  lemma RecordWinnersOutcome(w: WinnerMap, season: int, st: seq<StandingsTeam>)
    ensures RecordWinners(w, season, st).0 == if |st| >= 3 then Pass else Fail(ShortStandings(season))
  {
  }

  /** Writing a place sets it and leaves the season's other places alone. */
  lemma PutPlaceRead(w: WinnerMap, season: int, place: string, nickname: string, other: string)
    ensures Place(PutPlace(w, season, place, nickname), season, place) == Some(nickname)
    ensures other != place ==> Place(PutPlace(w, season, place, nickname), season, other) == Place(w, season, other)
  {
  }

  /** The first three managers of the standings are the season's winners, in order. */
  lemma RecordWinnersPlaces(w: WinnerMap, season: int, st: seq<StandingsTeam>)
    requires |st| >= 3
    ensures Place(RecordWinners(w, season, st).1, season, "1st") == Some(st[0].nickname)
    ensures Place(RecordWinners(w, season, st).1, season, "2nd") == Some(st[1].nickname)
    ensures Place(RecordWinners(w, season, st).1, season, "3rd") == Some(st[2].nickname)
  {
    PlacesDistinct();
    var w1 := PutPlace(w, season, "1st", st[0].nickname);
    var w2 := PutPlace(w1, season, "2nd", st[1].nickname);
    assert RecordWinners(w, season, st).1 == PutPlace(w2, season, "3rd", st[2].nickname);
    PutPlaceRead(w, season, "1st", st[0].nickname, "2nd");
    PutPlaceRead(w1, season, "2nd", st[1].nickname, "1st");
    PutPlaceRead(w2, season, "3rd", st[2].nickname, "1st");
    PutPlaceRead(w2, season, "3rd", st[2].nickname, "2nd");
  }

  lemma PutPlaceOther(w: WinnerMap, season: int, place: string, nickname: string, s: int)
    requires s != season
    ensures GetOr(PutPlace(w, season, place, nickname), s, Empty()) == GetOr(w, s, Empty())
  {
  }

  /** No other season's winners change. */
  lemma RecordWinnersOthers(w: WinnerMap, season: int, st: seq<StandingsTeam>, s: int)
    requires s != season
    ensures GetOr(RecordWinners(w, season, st).1, s, Empty()) == GetOr(w, s, Empty())
  {
    if |st| > 0 {
      var w1 := PutPlace(w, season, "1st", st[0].nickname);
      PutPlaceOther(w, season, "1st", st[0].nickname, s);
      if |st| > 1 {
        var w2 := PutPlace(w1, season, "2nd", st[1].nickname);
        PutPlaceOther(w1, season, "2nd", st[1].nickname, s);
        if |st| > 2 {
          PutPlaceOther(w2, season, "3rd", st[2].nickname, s);
          assert RecordWinners(w, season, st).1 == PutPlace(w2, season, "3rd", st[2].nickname);
        } else {
          assert RecordWinners(w, season, st).1 == w2;
        }
      } else {
        assert RecordWinners(w, season, st).1 == w1;
      }
    }
  }

  // ---- trades ----

  /** `int(key.rsplit('.')[-1]) - 1`, or None where `int()` raises ValueError. */
  function TeamIndex(key: string): Option<int> {
    match ParseInt(LastSegment(key))
    case None => None
    case Some(n) => Some(n - 1)
  }

  predicate IsTrade(t: Transaction) {
    t.kind == "trade"
  }

  /** One pass of the transaction loop (lines 134-141). The tuple holds the
      tradee's nickname first and the trader's second. The season's list is
      looked up (and so created) before `teams[...]` is evaluated, so an
      index error leaves an empty list behind for a new season. */
  function TradeStep(tm: TradeMap, season: int, teams: seq<Team>, t: Transaction): (Outcome<Error>, TradeMap) {
    if !IsTrade(t) then (Pass, tm)
    else
      match TeamIndex(t.tradeeTeamKey)
      case None => (Fail(BadTeamKey(t.tradeeTeamKey)), tm)
      case Some(k0) =>
        match TeamIndex(t.traderTeamKey)
        case None => (Fail(BadTeamKey(t.traderTeamKey)), tm)
        case Some(k1) =>
          var list := GetOr(tm, season, []);
          if !IndexOk(|teams|, k0) then (Fail(TeamIndexOutOfRange(k0)), Put(tm, season, list))
          else if !IndexOk(|teams|, k1) then (Fail(TeamIndexOutOfRange(k1)), Put(tm, season, list))
          else
            var tradee := teams[Position(|teams|, k0)].nickname;
            var trader := teams[Position(|teams|, k1)].nickname;
            (Pass, Put(tm, season, list + [Trade(tradee, trader)]))
  }

  /** The whole transaction loop, stopping at the first exception. */
  function RecordTrades(tm: TradeMap, season: int, teams: seq<Team>, ts: seq<Transaction>): (Outcome<Error>, TradeMap) {
    if ts == [] then (Pass, tm)
    else
      var r := RecordTrades(tm, season, teams, ts[..|ts| - 1]);
      if r.0.Fail? then r else TradeStep(r.1, season, teams, ts[|ts| - 1])
  }

  /** The first exception ends the loop: what it left is the outcome of the whole log. */
  lemma {:induction false} RecordTradesStops(tm: TradeMap, season: int, teams: seq<Team>, ts: seq<Transaction>, i: nat)
    requires i <= |ts| && RecordTrades(tm, season, teams, ts[..i]).0.Fail?
    ensures RecordTrades(tm, season, teams, ts) == RecordTrades(tm, season, teams, ts[..i])
  {
    if i < |ts| {
      var n := |ts| - 1;
      assert ts[..n][..i] == ts[..i];
      RecordTradesStops(tm, season, teams, ts[..n], i);
    } else {
      assert ts[..i] == ts;
    }
  }

  /** A transaction log with no trade in it leaves the map as it was. */
  lemma {:induction false} NonTradesIgnored(tm: TradeMap, season: int, teams: seq<Team>, ts: seq<Transaction>)
    requires forall i :: 0 <= i < |ts| ==> !IsTrade(ts[i])
    ensures RecordTrades(tm, season, teams, ts) == (Pass, tm)
  {
    if ts != [] {
      var n := |ts| - 1;
      forall i | 0 <= i < n ensures !IsTrade(ts[..n][i]) {
        assert ts[..n][i] == ts[i];
      }
      NonTradesIgnored(tm, season, teams, ts[..n]);
    }
  }

  /** The (tradee, trader) tuple of one log entry: none for an entry that is
      not a trade or whose team keys do not resolve. */
  function TupleOf(teams: seq<Team>, t: Transaction): seq<Trade> {
    if !IsTrade(t) then []
    else
      match TeamIndex(t.tradeeTeamKey)
      case None => []
      case Some(k0) =>
        match TeamIndex(t.traderTeamKey)
        case None => []
        case Some(k1) =>
          if IndexOk(|teams|, k0) && IndexOk(|teams|, k1)
          then [Trade(teams[Position(|teams|, k0)].nickname, teams[Position(|teams|, k1)].nickname)]
          else []
  }

  /** The tuples of a log's trades, in log order. */
  function TuplesOf(teams: seq<Team>, ts: seq<Transaction>): seq<Trade> {
    if ts == [] then [] else TuplesOf(teams, ts[..|ts| - 1]) + TupleOf(teams, ts[|ts| - 1])
  }

  /** A completed loop appends exactly one tuple per trade to the season's
      list: the tuples of the log's trades, in log order, after what was
      there before. It touches no other season. */
  lemma {:induction false} RecordTradesAppends(tm: TradeMap, season: int, teams: seq<Team>, ts: seq<Transaction>)
    requires RecordTrades(tm, season, teams, ts).0.Pass?
    ensures var after := GetOr(RecordTrades(tm, season, teams, ts).1, season, []);
      |after| == |GetOr(tm, season, [])| + CountIf(ts, IsTrade)
      && after[..|GetOr(tm, season, [])|] == GetOr(tm, season, [])
    ensures GetOr(RecordTrades(tm, season, teams, ts).1, season, []) == GetOr(tm, season, []) + TuplesOf(teams, ts)
    ensures forall s :: s != season ==> GetOr(RecordTrades(tm, season, teams, ts).1, s, []) == GetOr(tm, s, [])
  {
    if ts != [] {
      var n := |ts| - 1;
      var r := RecordTrades(tm, season, teams, ts[..n]);
      assert r.0.Pass?;
      RecordTradesAppends(tm, season, teams, ts[..n]);
      var before := GetOr(r.1, season, []);
      var k := |GetOr(tm, season, [])|;
      if IsTrade(ts[n]) {
        var after := GetOr(RecordTrades(tm, season, teams, ts).1, season, []);
        assert after[..|before|] == before;
        assert after[..k] == before[..k];
      }
    }
  }

  /** A trade whose keys name teams `a` (tradee) and `b` (trader),
      counting from 1, appends the tuple of their nicknames, tradee first. */
  lemma TradeOfIndices(tm: TradeMap, season: int, teams: seq<Team>, t: Transaction, a: int, b: int)
    requires IsTrade(t)
    requires TeamIndex(t.tradeeTeamKey) == Some(a - 1) && TeamIndex(t.traderTeamKey) == Some(b - 1)
    requires 1 <= a <= |teams| && 1 <= b <= |teams|
    ensures TradeStep(tm, season, teams, t)
      == (Pass, Put(tm, season, GetOr(tm, season, []) + [Trade(teams[a - 1].nickname, teams[b - 1].nickname)]))
  {
  }

  /** The keys Yahoo issues, `"<game>.l.<league>.t.<n>"` with `n` counting
      teams from 1, name the `n`-th team of the league's team list. */
  lemma TeamIndexOfKey(prefix: string, n: nat)
    ensures TeamIndex(prefix + ['.'] + Decimal(n)) == Some(n - 1)
  {
    TeamKeyNumber(prefix, n);
  }

  lemma TradeOfTeamKeys(tm: TradeMap, season: int, teams: seq<Team>, kind: string,
                        tradeePrefix: string, a: nat, traderPrefix: string, b: nat)
    requires kind == "trade"
    requires 1 <= a <= |teams| && 1 <= b <= |teams|
    ensures TradeStep(tm, season, teams,
        Transaction(kind, tradeePrefix + ['.'] + Decimal(a), traderPrefix + ['.'] + Decimal(b)))
      == (Pass, Put(tm, season, GetOr(tm, season, []) + [Trade(teams[a - 1].nickname, teams[b - 1].nickname)]))
  {
    TeamIndexOfKey(tradeePrefix, a);
    TeamIndexOfKey(traderPrefix, b);
    TradeOfIndices(tm, season, teams,
      Transaction(kind, tradeePrefix + ['.'] + Decimal(a), traderPrefix + ['.'] + Decimal(b)), a, b);
  }

  // ---- final standings: the per-manager table ----

  function StatsOf(t: StandingsTeam): StandingStats {
    StandingStats(t.pointsFor, t.pointsAgainst, t.rank, t.seed, t.wins, t.losses)
  }

  /** The standings loop (lines 143-152): the six fields of
      `standings_map[season][manager]`, written team by team. */
  function RecordStandings(sm: StandingsMap, season: int, st: seq<StandingsTeam>): StandingsMap {
    if st == [] then sm
    else
      var r := RecordStandings(sm, season, st[..|st| - 1]);
      var t := st[|st| - 1];
      Put(r, season, Put(GetOr(r, season, Empty()), t.nickname, StatsOf(t)))
  }

  function Nicknames(st: seq<StandingsTeam>): (r: seq<string>)
    ensures |r| == |st| && forall i :: 0 <= i < |st| ==> r[i] == st[i].nickname
  {
    if st == [] then [] else Nicknames(st[..|st| - 1]) + [st[|st| - 1].nickname]
  }

  /** The season's per-manager table. */
  function StandingsOf(sm: StandingsMap, season: int): Dict<string, StandingStats> {
    GetOr(sm, season, Empty())
  }

  /** A season with no standings gets no entry; for a season seen for the
      first time, the managers appear in the order of their first standings
      entry, each once. */
  lemma {:induction false} RecordStandingsKeys(sm: StandingsMap, season: int, st: seq<StandingsTeam>)
    requires season !in sm.vals
    ensures season in RecordStandings(sm, season, st).vals <==> st != []
    ensures StandingsOf(RecordStandings(sm, season, st), season).keys == Unique(Nicknames(st))
  {
    if st != [] {
      var n := |st| - 1;
      RecordStandingsKeys(sm, season, st[..n]);
      assert Nicknames(st)[..n] == Nicknames(st[..n]);
      var d := StandingsOf(RecordStandings(sm, season, st[..n]), season);
      assert st[n].nickname in d.vals <==> st[n].nickname in d.keys;
    }
  }

  /** Each manager holds the statistics of their last standings entry. */
  lemma {:induction false} RecordStandingsLastWins(sm: StandingsMap, season: int, st: seq<StandingsTeam>, name: string)
    requires name in Nicknames(st)
    ensures name in StandingsOf(RecordStandings(sm, season, st), season).vals
    ensures StandingsOf(RecordStandings(sm, season, st), season).vals[name]
      == StatsOf(st[LastIndex(Nicknames(st), name)])
  {
    var n := |st| - 1;
    var names := Nicknames(st);
    assert names == Nicknames(st[..n]) + [st[n].nickname];
    RecordStandingsStep(sm, season, st);
    var d := StandingsOf(RecordStandings(sm, season, st), season);
    var d0 := StandingsOf(RecordStandings(sm, season, st[..n]), season);
    assert d.vals == d0.vals[st[n].nickname := StatsOf(st[n])];
    if st[n].nickname == name {
      assert LastIndex(names, name) == n;
    } else {
      assert names[..n] == Nicknames(st[..n]);
      RecordStandingsLastWins(sm, season, st[..n], name);
      var k := LastIndex(Nicknames(st[..n]), name);
      assert LastIndex(names, name) == k;
      assert st[..n][k] == st[k];
    }
  }

  /** One more standings entry overwrites that manager's statistics for the season. */
  lemma RecordStandingsStep(sm: StandingsMap, season: int, st: seq<StandingsTeam>)
    requires st != []
    ensures var t := st[|st| - 1];
      StandingsOf(RecordStandings(sm, season, st), season)
        == Put(StandingsOf(RecordStandings(sm, season, st[..|st| - 1]), season), t.nickname, StatsOf(t))
  {
  }

  /** Other seasons keep their tables. */
  lemma {:induction false} RecordStandingsOthers(sm: StandingsMap, season: int, st: seq<StandingsTeam>, s: int)
    requires s != season
    ensures StandingsOf(RecordStandings(sm, season, st), s) == StandingsOf(sm, s)
  {
    if st != [] {
      RecordStandingsOthers(sm, season, st[..|st| - 1], s);
    }
  }

  // ---- weekly matchups ----

  /** The entry `extract_matchup_data` writes for `me` against `opp`
      (lines 209-217 and 251-258). */
  function MatchupStats(me: Team, opp: Team, s: Summary): WeekStats {
    WeekStats(me.points, me.projPoints, me.faabBalance, me.moves, me.rank,
      opp.points, opp.projPoints, opp.nickname,
      s.playerTeams, s.starterTeams, s.maxScore, s.minScore, s.zeroPt, s.negPt, s.byeStarters, s.posPts)
  }

  /** `managers_record_map[season][week][manager] = stats`, creating the
      season's and the week's entries on first use. */
  function PutRecord(rec: RecordMap, season: int, week: int, manager: string, stats: WeekStats): RecordMap {
    var sm := GetOr(rec, season, Empty());
    Put(rec, season, Put(sm, week, Put(GetOr(sm, week, Empty()), manager, stats)))
  }

  /** The record of `manager` in `week` of `season`, if there is one. */
  function RecordOf(rec: RecordMap, season: int, week: int, manager: string): Option<WeekStats> {
    if season in rec.vals && week in rec.vals[season].vals && manager in rec.vals[season].vals[week].vals
    then Some(rec.vals[season].vals[week].vals[manager])
    else None
  }

  /** The week keys of a season's table, in insertion order. */
  function WeekKeys(rec: RecordMap, season: int): seq<int> {
    if season in rec.vals then rec.vals[season].keys else []
  }

  /** `extract_matchup_data(mrm, me, opp, query, week)`: the roster of
      `me`'s team in `week` is summarised and stored with both scores. */
  function ExtractMatchup(rec: RecordMap, season: int, week: int, me: Team, opp: Team,
                          roster: (nat, int) -> seq<Player>): RecordMap {
    PutRecord(rec, season, week, me.nickname, MatchupStats(me, opp, Summarize(roster(me.teamId, week), week)))
  }

  /** One matchup of a week's scoreboard (lines 165-182): a tie stops the
      run before anything is written; otherwise each side gets its record. */
  function MatchupStep(rec: RecordMap, season: int, week: int, m: Matchup,
                       roster: (nat, int) -> seq<Player>): (Outcome<Error>, RecordMap) {
    if m.isTied then (Fail(Tie(season, week, m.team1.nickname, m.team2.nickname)), rec)
    else
      var r1 := ExtractMatchup(rec, season, week, m.team1, m.team2, roster);
      (Pass, ExtractMatchup(r1, season, week, m.team2, m.team1, roster))
  }

  /** Some matchup of the list is tied. */
  predicate HasTie(ms: seq<Matchup>) {
    ms != [] && (HasTie(ms[..|ms| - 1]) || ms[|ms| - 1].isTied)
  }

  lemma {:induction false} HasTieMeaning(ms: seq<Matchup>)
    ensures HasTie(ms) <==> exists i :: 0 <= i < |ms| && ms[i].isTied
  {
    if ms != [] {
      var n := |ms| - 1;
      HasTieMeaning(ms[..n]);
      if exists i :: 0 <= i < |ms| && ms[i].isTied {
        var i :| 0 <= i < |ms| && ms[i].isTied;
        if i < n {
          assert ms[..n][i].isTied;
        }
      }
      if HasTie(ms[..n]) {
        var i :| 0 <= i < n && ms[..n][i].isTied;
        assert ms[i].isTied;
      }
    }
  }

  /** The matchups of one week, in scoreboard order. */
  function RecordMatchups(rec: RecordMap, season: int, week: int, ms: seq<Matchup>,
                          roster: (nat, int) -> seq<Player>): (Outcome<Error>, RecordMap) {
    if ms == [] then (Pass, rec)
    else
      var r := RecordMatchups(rec, season, week, ms[..|ms| - 1], roster);
      if r.0.Fail? then r else MatchupStep(r.1, season, week, ms[|ms| - 1], roster)
  }

  /** Once the week's loop has stopped, a further matchup changes nothing. */
  lemma RecordMatchupsFailStays(rec: RecordMap, season: int, week: int, ms: seq<Matchup>,
                                roster: (nat, int) -> seq<Player>, m: Matchup)
    requires RecordMatchups(rec, season, week, ms, roster).0.Fail?
    ensures RecordMatchups(rec, season, week, ms + [m], roster) == RecordMatchups(rec, season, week, ms, roster)
  {
    assert (ms + [m])[..|ms|] == ms;
  }

  /** While no tie has been met, the loop goes on with the next matchup. */
  lemma RecordMatchupsNext(rec: RecordMap, season: int, week: int, ms: seq<Matchup>,
                           roster: (nat, int) -> seq<Player>, i: nat)
    requires i < |ms| && RecordMatchups(rec, season, week, ms[..i], roster).0.Pass?
    ensures RecordMatchups(rec, season, week, ms[..i + 1], roster)
      == MatchupStep(RecordMatchups(rec, season, week, ms[..i], roster).1, season, week, ms[i], roster)
  {
    assert ms[..i + 1][..i] == ms[..i];
  }

  /** A tie ends the week's loop: what it left is the outcome of the whole week. */
  lemma {:induction false} RecordMatchupsStops(rec: RecordMap, season: int, week: int, ms: seq<Matchup>,
                                               roster: (nat, int) -> seq<Player>, i: nat)
    requires i <= |ms| && RecordMatchups(rec, season, week, ms[..i], roster).0.Fail?
    ensures RecordMatchups(rec, season, week, ms, roster) == RecordMatchups(rec, season, week, ms[..i], roster)
  {
    if i < |ms| {
      var n := |ms| - 1;
      assert ms[..n][..i] == ms[..i];
      RecordMatchupsStops(rec, season, week, ms[..n], roster, i);
      var r := RecordMatchups(rec, season, week, ms[..n], roster);
      assert r.0.Fail?;
      assert RecordMatchups(rec, season, week, ms, roster) == r by {
        assert ms[..|ms| - 1] == ms[..n];
      }
    } else {
      assert ms[..i] == ms;
    }
  }

  /** The run stops in a week exactly when the week holds a tied matchup,
      and then by the `exit(2)` of a tie in that week. */
  lemma {:induction false} RecordMatchupsOutcome(rec: RecordMap, season: int, week: int, ms: seq<Matchup>,
                                                 roster: (nat, int) -> seq<Player>)
    ensures RecordMatchups(rec, season, week, ms, roster).0.Pass? <==> !HasTie(ms)
    ensures var o := RecordMatchups(rec, season, week, ms, roster).0;
      o.Fail? ==> o.error.Tie? && o.error.season == season && o.error.week == week
  {
    if ms != [] {
      RecordMatchupsOutcome(rec, season, week, ms[..|ms| - 1], roster);
    }
  }

  /** The week loop (lines 155-182) over weeks 1 to `last`: a missing
      scoreboard skips the week. */
  function RecordWeeks(rec: RecordMap, d: LeagueData, last: int): (Outcome<Error>, RecordMap)
    decreases last
  {
    if last < 1 then (Pass, rec)
    else
      var r := RecordWeeks(rec, d, last - 1);
      if r.0.Fail? then r
      else
        match d.scoreboard(last)
        case None => r
        case Some(ms) => RecordMatchups(r.1, d.season, last, ms, d.roster)
  }

  lemma RecordWeeksFailStays(rec: RecordMap, d: LeagueData, last: int)
    requires last >= 1 && RecordWeeks(rec, d, last - 1).0.Fail?
    ensures RecordWeeks(rec, d, last) == RecordWeeks(rec, d, last - 1)
  {
  }

  /** A tie in week `w` ends the week loop there. */
  lemma {:induction false} RecordWeeksStops(rec: RecordMap, d: LeagueData, w: int, last: int)
    requires w <= last && RecordWeeks(rec, d, w).0.Fail?
    ensures RecordWeeks(rec, d, last) == RecordWeeks(rec, d, w)
    decreases last
  {
    if w < last {
      RecordWeeksStops(rec, d, w, last - 1);
      RecordWeeksFailStays(rec, d, last);
    }
  }

  /** No scoreboard of weeks 1 to `last` holds a tie. */
  predicate NoTies(d: LeagueData, last: int) {
    forall w :: 1 <= w <= last && d.scoreboard(w).Some? ==> !HasTie(d.scoreboard(w).value)
  }

  lemma NoTiesSplit(d: LeagueData, last: int)
    requires last >= 1
    ensures NoTies(d, last) <==> NoTies(d, last - 1) && (d.scoreboard(last).Some? ==> !HasTie(d.scoreboard(last).value))
  {
  }

  /** The run goes through exactly when no scoreboard of weeks 1 to `last`
      holds a tie. */
  lemma {:induction false} RecordWeeksOutcome(rec: RecordMap, d: LeagueData, last: int)
    ensures RecordWeeks(rec, d, last).0.Pass? <==> NoTies(d, last)
    decreases last
  {
    if last >= 1 {
      RecordWeeksOutcome(rec, d, last - 1);
      NoTiesSplit(d, last);
      var r := RecordWeeks(rec, d, last - 1);
      if r.0.Pass? && d.scoreboard(last).Some? {
        RecordMatchupsOutcome(r.1, d.season, last, d.scoreboard(last).value, d.roster);
      }
    }
  }


  /** `parse_query`: winners, trades, standings, then the weeks up to the
      league's current week. */
  function ParseLeague(t: Tables, d: LeagueData): (Outcome<Error>, Tables) {
    var (o1, w) := RecordWinners(t.winners, d.season, d.standings);
    if o1.Fail? then (o1, t.(winners := w))
    else
      var (o2, tm) := RecordTrades(t.transactions, d.season, d.teams, d.transactions);
      if o2.Fail? then (o2, t.(winners := w, transactions := tm))
      else
        var sm := RecordStandings(t.standings, d.season, d.standings);
        var (o3, rec) := RecordWeeks(t.records, d, d.currentWeek);
        (o3, t.(winners := w, transactions := tm, standings := sm, records := rec))
  }

  // ---- properties of the weekly records ----

  /** A stored record can be read back, and storing it changes no other manager's record. */
  lemma PutRecordRead(rec: RecordMap, season: int, week: int, manager: string, stats: WeekStats, other: string)
    ensures RecordOf(PutRecord(rec, season, week, manager, stats), season, week, manager) == Some(stats)
    ensures other != manager ==>
      RecordOf(PutRecord(rec, season, week, manager, stats), season, week, other) == RecordOf(rec, season, week, other)
  {
  }

  /** Both sides of an untied matchup between two managers get a record
      whose opponent columns are the other side's own columns. */
  lemma MirrorRecords(rec: RecordMap, season: int, week: int, m: Matchup, roster: (nat, int) -> seq<Player>)
    requires !m.isTied && m.team1.nickname != m.team2.nickname
    ensures var r := MatchupStep(rec, season, week, m, roster);
      r.0 == Pass
      && RecordOf(r.1, season, week, m.team1.nickname).Some?
      && RecordOf(r.1, season, week, m.team2.nickname).Some?
      && var a := RecordOf(r.1, season, week, m.team1.nickname).value;
         var b := RecordOf(r.1, season, week, m.team2.nickname).value;
         a.opponent == m.team2.nickname && b.opponent == m.team1.nickname
         && a.oppPoints == b.points && a.oppProjPoints == b.projPoints
         && b.oppPoints == a.points && b.oppProjPoints == a.projPoints
  {
    var s1 := MatchupStats(m.team1, m.team2, Summarize(roster(m.team1.teamId, week), week));
    var s2 := MatchupStats(m.team2, m.team1, Summarize(roster(m.team2.teamId, week), week));
    var r1 := PutRecord(rec, season, week, m.team1.nickname, s1);
    var r2 := PutRecord(r1, season, week, m.team2.nickname, s2);
    assert MatchupStep(rec, season, week, m, roster) == (Pass, r2);
    PutRecordRead(rec, season, week, m.team1.nickname, s1, m.team2.nickname);
    PutRecordRead(r1, season, week, m.team2.nickname, s2, m.team1.nickname);
  }

  /** A tied matchup writes nothing. */
  lemma TieWritesNothing(rec: RecordMap, season: int, week: int, m: Matchup, roster: (nat, int) -> seq<Player>)
    requires m.isTied
    ensures MatchupStep(rec, season, week, m, roster) == (Fail(Tie(season, week, m.team1.nickname, m.team2.nickname)), rec)
  {
  }

  /** Storing a record adds the week to the season's week list if it is new. */
  lemma PutRecordWeekKeys(rec: RecordMap, season: int, week: int, manager: string, stats: WeekStats)
    ensures WeekKeys(PutRecord(rec, season, week, manager, stats), season)
      == if week in WeekKeys(rec, season) then WeekKeys(rec, season) else WeekKeys(rec, season) + [week]
  {
    var sm := GetOr(rec, season, Empty());
    assert week in sm.vals <==> week in sm.keys;
  }

  /** Storing a record leaves other seasons alone. */
  lemma PutRecordOthers(rec: RecordMap, season: int, week: int, manager: string, stats: WeekStats, s: int)
    requires s != season
    ensures s in PutRecord(rec, season, week, manager, stats).vals <==> s in rec.vals
    ensures s in rec.vals ==> PutRecord(rec, season, week, manager, stats).vals[s] == rec.vals[s]
  {
  }

  /** The matchups of a week add at most that week to the season's week
      list, and a week with at least one matchup and no tie is added. */
  lemma RecordMatchupsWeekKeys(rec: RecordMap, season: int, week: int, ms: seq<Matchup>,
                               roster: (nat, int) -> seq<Player>)
    ensures var ks := WeekKeys(RecordMatchups(rec, season, week, ms, roster).1, season);
      ks == WeekKeys(rec, season) || (week !in WeekKeys(rec, season) && ks == WeekKeys(rec, season) + [week])
    ensures ms != [] && !HasTie(ms) ==> week in WeekKeys(RecordMatchups(rec, season, week, ms, roster).1, season)
  {
    RecordMatchupsWeekKeysAtMost(rec, season, week, ms, roster);
    if ms != [] && !HasTie(ms) {
      RecordMatchupsAddsWeek(rec, season, week, ms, roster);
    }
  }

  lemma {:induction false} RecordMatchupsWeekKeysAtMost(rec: RecordMap, season: int, week: int, ms: seq<Matchup>,
                                                        roster: (nat, int) -> seq<Player>)
    ensures var ks := WeekKeys(RecordMatchups(rec, season, week, ms, roster).1, season);
      ks == WeekKeys(rec, season) || (week !in WeekKeys(rec, season) && ks == WeekKeys(rec, season) + [week])
  {
    if ms != [] {
      var n := |ms| - 1;
      RecordMatchupsWeekKeysAtMost(rec, season, week, ms[..n], roster);
      var r := RecordMatchups(rec, season, week, ms[..n], roster);
      if r.0.Pass? && !ms[n].isTied {
        var m := ms[n];
        var s1 := MatchupStats(m.team1, m.team2, Summarize(roster(m.team1.teamId, week), week));
        var s2 := MatchupStats(m.team2, m.team1, Summarize(roster(m.team2.teamId, week), week));
        var r1 := PutRecord(r.1, season, week, m.team1.nickname, s1);
        assert RecordMatchups(rec, season, week, ms, roster).1 == PutRecord(r1, season, week, m.team2.nickname, s2);
        PutRecordWeekKeys(r.1, season, week, m.team1.nickname, s1);
        PutRecordWeekKeys(r1, season, week, m.team2.nickname, s2);
      }
    }
  }

  /** An untied matchup stores its week. */
  lemma MatchupStepAddsWeek(rec: RecordMap, season: int, week: int, m: Matchup, roster: (nat, int) -> seq<Player>)
    requires !m.isTied
    ensures week in WeekKeys(MatchupStep(rec, season, week, m, roster).1, season)
  {
    var s1 := MatchupStats(m.team1, m.team2, Summarize(roster(m.team1.teamId, week), week));
    var s2 := MatchupStats(m.team2, m.team1, Summarize(roster(m.team2.teamId, week), week));
    var r1 := PutRecord(rec, season, week, m.team1.nickname, s1);
    assert MatchupStep(rec, season, week, m, roster).1 == PutRecord(r1, season, week, m.team2.nickname, s2);
    PutRecordWeekKeys(r1, season, week, m.team2.nickname, s2);
  }

  /** A week with matchups and no tie ends with its week stored. */
  lemma RecordMatchupsAddsWeek(rec: RecordMap, season: int, week: int, ms: seq<Matchup>,
                               roster: (nat, int) -> seq<Player>)
    requires ms != [] && !HasTie(ms)
    ensures week in WeekKeys(RecordMatchups(rec, season, week, ms, roster).1, season)
  {
    var n := |ms| - 1;
    assert !HasTie(ms[..n]) && !ms[n].isTied;
    RecordMatchupsOutcome(rec, season, week, ms[..n], roster);
    RecordMatchupsNext(rec, season, week, ms, roster, n);
    assert ms[..n + 1] == ms;
    MatchupStepAddsWeek(RecordMatchups(rec, season, week, ms[..n], roster).1, season, week, ms[n], roster);
  }

  /** The matchups of a week leave other seasons alone. */
  lemma {:induction false} RecordMatchupsOthers(rec: RecordMap, season: int, week: int, ms: seq<Matchup>,
                                                roster: (nat, int) -> seq<Player>, s: int)
    requires s != season
    ensures s in RecordMatchups(rec, season, week, ms, roster).1.vals <==> s in rec.vals
    ensures s in rec.vals ==> RecordMatchups(rec, season, week, ms, roster).1.vals[s] == rec.vals[s]
  {
    if ms != [] {
      var n := |ms| - 1;
      RecordMatchupsOthers(rec, season, week, ms[..n], roster, s);
      var r := RecordMatchups(rec, season, week, ms[..n], roster);
      if r.0.Pass? && !ms[n].isTied {
        var m := ms[n];
        var s1 := MatchupStats(m.team1, m.team2, Summarize(roster(m.team1.teamId, week), week));
        var s2 := MatchupStats(m.team2, m.team1, Summarize(roster(m.team2.teamId, week), week));
        var r1 := PutRecord(r.1, season, week, m.team1.nickname, s1);
        assert RecordMatchups(rec, season, week, ms, roster).1 == PutRecord(r1, season, week, m.team2.nickname, s2);
        PutRecordOthers(r.1, season, week, m.team1.nickname, s1, s);
        PutRecordOthers(r1, season, week, m.team2.nickname, s2, s);
      }
    }
  }

  predicate StrictlyIncreasing(s: seq<int>) {
    forall i, j :: 0 <= i < j < |s| ==> s[i] < s[j]
  }

  lemma AppendIncreasing(ks: seq<int>, x: int)
    requires StrictlyIncreasing(ks)
    requires forall i :: 0 <= i < |ks| ==> ks[i] < x
    ensures StrictlyIncreasing(ks + [x])
  {
  }

  /** For a season parsed for the first time, its weeks are stored in
      increasing order, each between 1 and `last`, and only weeks whose
      scoreboard exists. */
  lemma {:induction false} RecordWeeksKeys(rec: RecordMap, d: LeagueData, last: int)
    requires WeekKeys(rec, d.season) == []
    ensures var ks := WeekKeys(RecordWeeks(rec, d, last).1, d.season);
      StrictlyIncreasing(ks)
      && forall i :: 0 <= i < |ks| ==> 1 <= ks[i] <= last && d.scoreboard(ks[i]).Some?
    decreases last
  {
    if last >= 1 {
      RecordWeeksKeys(rec, d, last - 1);
      var r := RecordWeeks(rec, d, last - 1);
      var ks := WeekKeys(r.1, d.season);
      if r.0.Pass? && d.scoreboard(last).Some? {
        var ms := d.scoreboard(last).value;
        assert RecordWeeks(rec, d, last).1 == RecordMatchups(r.1, d.season, last, ms, d.roster).1;
        RecordMatchupsWeekKeys(r.1, d.season, last, ms, d.roster);
        AppendIncreasing(ks, last);
      }
    }
  }

  /** A week of 1 to `last` whose scoreboard has matchups gets its records
      when the run goes through, whatever weeks were skipped before it:
      the week is stored, and both sides of each of its matchups have a record. */
  lemma RecordWeeksComplete(rec: RecordMap, d: LeagueData, last: int, w: int)
    requires RecordWeeks(rec, d, last).0.Pass?
    requires 1 <= w <= last && d.scoreboard(w).Some? && d.scoreboard(w).value != []
    ensures w in WeekKeys(RecordWeeks(rec, d, last).1, d.season)
    ensures var ms := d.scoreboard(w).value;
      forall i :: 0 <= i < |ms| ==>
        RecordOf(RecordWeeks(rec, d, last).1, d.season, w, ms[i].team1.nickname).Some?
        && RecordOf(RecordWeeks(rec, d, last).1, d.season, w, ms[i].team2.nickname).Some?
  {
    RecordWeeksStoresWeek(rec, d, last, w);
    var ms := d.scoreboard(w).value;
    forall i | 0 <= i < |ms|
      ensures RecordOf(RecordWeeks(rec, d, last).1, d.season, w, ms[i].team1.nickname).Some?
      ensures RecordOf(RecordWeeks(rec, d, last).1, d.season, w, ms[i].team2.nickname).Some?
    {
      RecordWeeksStoresMatchup(rec, d, last, w, i);
    }
  }

  /** A stored record survives storing any other record. */
  lemma PutRecordKeeps(rec: RecordMap, season: int, week: int, manager: string, stats: WeekStats,
                       s: int, w: int, m: string)
    requires RecordOf(rec, s, w, m).Some?
    ensures RecordOf(PutRecord(rec, season, week, manager, stats), s, w, m).Some?
  {
  }

  /** A stored record survives one more matchup. */
  lemma MatchupStepKeeps(rec: RecordMap, season: int, week: int, mt: Matchup, roster: (nat, int) -> seq<Player>,
                         s: int, w: int, m: string)
    requires RecordOf(rec, s, w, m).Some?
    ensures RecordOf(MatchupStep(rec, season, week, mt, roster).1, s, w, m).Some?
  {
    if !mt.isTied {
      var s1 := MatchupStats(mt.team1, mt.team2, Summarize(roster(mt.team1.teamId, week), week));
      var s2 := MatchupStats(mt.team2, mt.team1, Summarize(roster(mt.team2.teamId, week), week));
      var r1 := PutRecord(rec, season, week, mt.team1.nickname, s1);
      assert MatchupStep(rec, season, week, mt, roster).1 == PutRecord(r1, season, week, mt.team2.nickname, s2);
      PutRecordKeeps(rec, season, week, mt.team1.nickname, s1, s, w, m);
      PutRecordKeeps(r1, season, week, mt.team2.nickname, s2, s, w, m);
    }
  }

  /** Both sides of an untied matchup have a record afterwards. */
  lemma MatchupStepStores(rec: RecordMap, season: int, week: int, mt: Matchup, roster: (nat, int) -> seq<Player>)
    requires !mt.isTied
    ensures RecordOf(MatchupStep(rec, season, week, mt, roster).1, season, week, mt.team1.nickname).Some?
    ensures RecordOf(MatchupStep(rec, season, week, mt, roster).1, season, week, mt.team2.nickname).Some?
  {
    var s1 := MatchupStats(mt.team1, mt.team2, Summarize(roster(mt.team1.teamId, week), week));
    var s2 := MatchupStats(mt.team2, mt.team1, Summarize(roster(mt.team2.teamId, week), week));
    var r1 := PutRecord(rec, season, week, mt.team1.nickname, s1);
    assert MatchupStep(rec, season, week, mt, roster).1 == PutRecord(r1, season, week, mt.team2.nickname, s2);
    PutRecordRead(rec, season, week, mt.team1.nickname, s1, mt.team2.nickname);
    PutRecordKeeps(r1, season, week, mt.team2.nickname, s2, season, week, mt.team1.nickname);
    PutRecordRead(r1, season, week, mt.team2.nickname, s2, mt.team1.nickname);
  }

  /** A stored record survives a week's matchups. */
  lemma {:induction false} RecordMatchupsKeeps(rec: RecordMap, season: int, week: int, ms: seq<Matchup>,
                                               roster: (nat, int) -> seq<Player>, s: int, w: int, m: string)
    requires RecordOf(rec, s, w, m).Some?
    ensures RecordOf(RecordMatchups(rec, season, week, ms, roster).1, s, w, m).Some?
  {
    if ms != [] {
      var n := |ms| - 1;
      RecordMatchupsKeeps(rec, season, week, ms[..n], roster, s, w, m);
      var r := RecordMatchups(rec, season, week, ms[..n], roster);
      if r.0.Pass? {
        MatchupStepKeeps(r.1, season, week, ms[n], roster, s, w, m);
      }
    }
  }

  /** In a week without ties, both sides of each matchup have a record. */
  lemma {:induction false} RecordMatchupsStores(rec: RecordMap, season: int, week: int, ms: seq<Matchup>,
                                                roster: (nat, int) -> seq<Player>, i: nat)
    requires !HasTie(ms) && i < |ms|
    ensures RecordOf(RecordMatchups(rec, season, week, ms, roster).1, season, week, ms[i].team1.nickname).Some?
    ensures RecordOf(RecordMatchups(rec, season, week, ms, roster).1, season, week, ms[i].team2.nickname).Some?
  {
    var n := |ms| - 1;
    assert !HasTie(ms[..n]) && !ms[n].isTied;
    RecordMatchupsOutcome(rec, season, week, ms[..n], roster);
    var r := RecordMatchups(rec, season, week, ms[..n], roster);
    assert RecordMatchups(rec, season, week, ms, roster) == MatchupStep(r.1, season, week, ms[n], roster);
    if i == n {
      MatchupStepStores(r.1, season, week, ms[n], roster);
    } else {
      assert ms[..n][i] == ms[i];
      RecordMatchupsStores(rec, season, week, ms[..n], roster, i);
      MatchupStepKeeps(r.1, season, week, ms[n], roster, season, week, ms[i].team1.nickname);
      MatchupStepKeeps(r.1, season, week, ms[n], roster, season, week, ms[i].team2.nickname);
    }
  }

  /** A stored record survives the weeks after `w`. */
  lemma {:induction false} RecordWeeksKeeps(rec: RecordMap, d: LeagueData, w: int, last: int, s: int, wk: int, m: string)
    requires w <= last && RecordOf(RecordWeeks(rec, d, w).1, s, wk, m).Some?
    ensures RecordOf(RecordWeeks(rec, d, last).1, s, wk, m).Some?
    decreases last - w
  {
    if w < last {
      RecordWeeksKeeps(rec, d, w, last - 1, s, wk, m);
      var r := RecordWeeks(rec, d, last - 1);
      if last >= 1 && r.0.Pass? && d.scoreboard(last).Some? {
        assert RecordWeeks(rec, d, last) == RecordMatchups(r.1, d.season, last, d.scoreboard(last).value, d.roster);
        RecordMatchupsKeeps(r.1, d.season, last, d.scoreboard(last).value, d.roster, s, wk, m);
      } else {
        assert RecordWeeks(rec, d, last).1 == r.1;
      }
    }
  }

  /** Week `w`'s matchup `i` has both records at the end of a run that went through. */
  lemma RecordWeeksStoresMatchup(rec: RecordMap, d: LeagueData, last: int, w: int, i: nat)
    requires RecordWeeks(rec, d, last).0.Pass?
    requires 1 <= w <= last && d.scoreboard(w).Some? && i < |d.scoreboard(w).value|
    ensures var mt := d.scoreboard(w).value[i];
      RecordOf(RecordWeeks(rec, d, last).1, d.season, w, mt.team1.nickname).Some?
      && RecordOf(RecordWeeks(rec, d, last).1, d.season, w, mt.team2.nickname).Some?
  {
    var ms := d.scoreboard(w).value;
    var mt := ms[i];
    if RecordWeeks(rec, d, w).0.Fail? {
      RecordWeeksStops(rec, d, w, last);
      assert false;
    }
    RecordWeeksPassStep(rec, d, w);
    var r := RecordWeeks(rec, d, w - 1);
    RecordMatchupsOutcome(r.1, d.season, w, ms, d.roster);
    RecordMatchupsStores(r.1, d.season, w, ms, d.roster, i);
    RecordWeeksKeeps(rec, d, w, last, d.season, w, mt.team1.nickname);
    RecordWeeksKeeps(rec, d, w, last, d.season, w, mt.team2.nickname);
  }

  /** The week itself is among the season's stored weeks. */
  lemma {:induction false} RecordWeeksStoresWeek(rec: RecordMap, d: LeagueData, last: int, w: int)
    requires RecordWeeks(rec, d, last).0.Pass?
    requires 1 <= w <= last && d.scoreboard(w).Some? && d.scoreboard(w).value != []
    ensures w in WeekKeys(RecordWeeks(rec, d, last).1, d.season)
    decreases last
  {
    RecordWeeksPassStep(rec, d, last);
    var r := RecordWeeks(rec, d, last - 1);
    if w < last {
      RecordWeeksStoresWeek(rec, d, last - 1, w);
      if d.scoreboard(last).Some? {
        RecordMatchupsWeekKeys(r.1, d.season, last, d.scoreboard(last).value, d.roster);
      }
    } else {
      var ms := d.scoreboard(w).value;
      RecordMatchupsOutcome(r.1, d.season, w, ms, d.roster);
      RecordMatchupsWeekKeys(r.1, d.season, w, ms, d.roster);
    }
  }

  /** A week loop that went through also went through the week before, and
      its last week either was skipped or recorded that week's matchups. */
  lemma RecordWeeksPassStep(rec: RecordMap, d: LeagueData, last: int)
    requires last >= 1 && RecordWeeks(rec, d, last).0.Pass?
    ensures RecordWeeks(rec, d, last - 1).0.Pass?
    ensures d.scoreboard(last).None? ==> RecordWeeks(rec, d, last) == RecordWeeks(rec, d, last - 1)
    ensures d.scoreboard(last).Some? ==>
      RecordWeeks(rec, d, last)
        == RecordMatchups(RecordWeeks(rec, d, last - 1).1, d.season, last, d.scoreboard(last).value, d.roster)
  {
  }

  /** The week loop touches no other season. */
  lemma {:induction false} RecordWeeksOthers(rec: RecordMap, d: LeagueData, last: int, s: int)
    requires s != d.season
    ensures (s in RecordWeeks(rec, d, last).1.vals <==> s in rec.vals)
    ensures s in rec.vals ==> RecordWeeks(rec, d, last).1.vals[s] == rec.vals[s]
    decreases last
  {
    if last >= 1 {
      RecordWeeksOthers(rec, d, last - 1, s);
      var r := RecordWeeks(rec, d, last - 1);
      if r.0.Pass? && d.scoreboard(last).Some? {
        RecordMatchupsOthers(r.1, d.season, last, d.scoreboard(last).value, d.roster, s);
      }
    }
  }
}
