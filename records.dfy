/** The values the engine reads from the fantasy-sports provider, the
    tables it accumulates, and the rows of the three files it writes. */
module Records {
  import opened PySeq
  import opened PyDict

  // ---- provider responses ----

  /** A league listed for the user under one season's game key. */
  datatype League = League(name: string, leagueId: string)

  /** A team as it appears in a scoreboard side or in the league's team list
      (its first manager's nickname stands for the team). */
  datatype Team = Team(
    nickname: string,
    teamId: nat,
    points: real,
    projPoints: real,
    faabBalance: int,
    moves: int,
    rank: int)

  /** A team in the final standings. */
  datatype StandingsTeam = StandingsTeam(
    nickname: string,
    pointsFor: real,
    pointsAgainst: real,
    rank: int,
    seed: int,
    wins: int,
    losses: int)

  /** One rostered player in one week: real-world team, lineup slot, points, bye week. */
  datatype Player = Player(teamAbbr: string, position: string, points: real, byeWeek: int)

  /** One weekly head-to-head pairing; `team1`/`team2` are the provider's two sides. */
  datatype Matchup = Matchup(team1: Team, team2: Team, isTied: bool)

  /** One transaction-log entry; trades carry the two parties' team keys. */
  datatype Transaction = Transaction(kind: string, tradeeTeamKey: string, traderTeamKey: string)

  /** Everything the queries for one league in one season return:
      metadata, standings, team list, transaction log, the scoreboard of a
      week (None when the provider has none) and the roster of a team in a week. */
  datatype LeagueData = LeagueData(
    season: int,
    currentWeek: int,
    standings: seq<StandingsTeam>,
    teams: seq<Team>,
    transactions: seq<Transaction>,
    scoreboard: int -> Option<seq<Matchup>>,
    roster: (nat, int) -> seq<Player>)

  /** The provider: the user's leagues in a season, and a league's data for a season. */
  datatype Provider = Provider(
    leagues: int -> seq<League>,
    league: (int, string) -> LeagueData)

  // ---- accumulated tables ----

  /** The entry `managers_record_map[season][week][manager]`. */
  datatype WeekStats = WeekStats(
    points: real,
    projPoints: real,
    faabBalance: int,
    moves: int,
    rank: int,
    oppPoints: real,
    oppProjPoints: real,
    opponent: string,
    playerTeams: Dict<string, int>,
    starterTeams: Dict<string, int>,
    maxPlayerScore: real,
    minPlayerScore: real,
    zeroPtStarters: nat,
    negPtStarters: nat,
    byeStarters: nat,
    posPts: Dict<string, real>)

  /** The entry `standings_map[season][manager]`. */
  datatype StandingStats = StandingStats(pf: real, pa: real, rank: int, seed: int, wins: int, losses: int)

  /** An entry of `transactions_map[season]`: the tuple as built, tradee first, trader second. */
  datatype Trade = Trade(first: string, second: string)

  // ---- output rows ----

  /** A row of data.csv. */
  datatype DataRow = DataRow(season: int, week: int, manager: string, stats: WeekStats)

  /** A row of standings.csv. */
  datatype StandingsRow = StandingsRow(season: int, manager: string, stats: StandingStats)

  /** A row of transactions.csv. */
  datatype TradeRow = TradeRow(season: int, trader: string, tradee: string)

  /** The exceptions (and the `exit(2)`) that abort a run. */
  datatype Error =
    | AmbiguousLeague(season: int)
    | NoLeagues(season: int)
    | NoLeagueId(season: int)
    | ShortStandings(season: int)
    | BadTeamKey(key: string)
    | TeamIndexOutOfRange(index: int)
    | Tie(season: int, week: int, manager1: string, manager2: string)
    | AliasFileMissing
    | MissingManagerColumn
}
