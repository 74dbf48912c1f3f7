# PocketProtectors, modelled in Dafny

PocketProtectors collects a fantasy-football league's history from the Yahoo
Fantasy Sports API, one season at a time. It writes three flat tables:

- `data.csv`: one row per manager per week;
- `standings.csv`: one row per manager per season;
- `transactions.csv`: one row per trade.

Downstream code reads those tables to hand out "awards", build the chart data
of the web site and draw plots. This project models:

- **the extraction engine** (`Query` in `src/query.py`). It resolves the
  league name and id, parses a season's podium, trades, standings and weekly
  scoreboards, and summarises every roster. It then flattens the tables into
  rows, applies the manager aliases and runs the season loop.
- **the awards** (`src/awards.py`): the weekly best/worst scorer counters and
  each manager's favourite real-world team.
- **the chart data** (`src/contentgen.py`): per-manager playoff and
  championship counts.
- **the data each plot is drawn from** (`src/plotting.py`): the win-loss grid
  of the head-to-head heatmap, the total-winnings ledger, the trade-count bars
  and the weighted trade network.

Python's dictionaries keep insertion order, and the flattening order, the
key order of `dict.fromkeys` and the tie-break of the favourite team all
depend on that order. So a dictionary is modelled as `PyDict.Dict`: a key
sequence plus a map. The provider's answers are inputs:

- `Records.Provider` gives the leagues of a season and a league's data for a
  season;
- `Records.LeagueData` carries the scoreboard of a week and the roster of a
  team in a week as functions.

Every exception the code raises aborts the run, and so does the `exit(2)` on
a tied matchup. Each one is an `Error` value, and the tables are specified as
the code leaves them at that point.

Module layout:

- `Records`: the provider's values, the accumulated tables and the output
  rows.
- `Leagues`: the `run_query` league resolution.
- `Parse`: `parse_query` as functions over the tables.
- `Roster`: the roster summary of `extract_matchup_data`.
- `Save`: flattening, aliasing and `save_data`.
- `QueryEngine`: the `Query` class, whose methods update its five tables in
  place, and the season loop.
- `Awards`, `ContentGen`, `Plotting`: the downstream consumers.
- `PySeq`, `PyStr`, `PyDict`, `Tally`: the Python and pandas primitives the
  code relies on.

These are Python and pandas primitives:

- `unique()`;
- `sorted`;
- `str.replace`;
- `rsplit('.')[-1]`;
- `int()`;
- negative indexing;
- boolean masks and their sums.

Three behaviours of the code the model keeps:

- **A missing alias file is an error.** The `exists` test at
  `src/query.py:285` is never called. The bound method `manager_aliases_path.exists`
  is always truthy, so `not manager_aliases_path.exists` is always false, and the
  following `open` raises on a missing `manager_aliases.json`. The guard at
  `src/query.py:285-286` is evidently meant to return without aliasing; it
  never fires. The model raises `AliasFileMissing`.
- **The trade tuple is written in the order it was built.** The tuple holds
  the tradee's nickname first (lines 138-141), and `save_data` writes the
  first element as `trader` (lines 342-356). The model keeps this order.
- **Trades are written only for some seasons.** `save_data` iterates the
  season keys of the weekly records, not those of the trade map (line 336).
  So trades of a season without weekly records are never written.

## Model

| member | source | states |
|---|---|---|
| Leagues.LastLeagueIdMeaning | src/query.py:84-91 | The league loop finds no id exactly when no listed league has the name; otherwise the id is that of the last league with the name. |
| Leagues.Resolve | src/query.py:75-91 | Resolution with no known name fails on several leagues (ambiguous) and on none. With exactly one league it learns its name and id. A known name is kept, and the lookup fails exactly when no league has that name. A returned id belongs to the last league carrying the name. |
| Leagues.FindLeagueId | src/query.py:84-88 | The loop over the leagues ends with the id of the last league named like the league; None if there is none. |
| QueryEngine.RunSeasonsStops | src/query.py:268-271 | An exception in some season ends the season loop there: later seasons change nothing. |
| QueryEngine.RunSeasonsNext | src/query.py:268-271 | After a season that raised nothing, the loop goes on with `run_query` and `parse_query` for the next season. |
| QueryEngine.NameLearnedOnce | src/query.py:75-82 | Once the league name is set, no later season changes it. |
| QueryEngine.NameFromSingleLeague | src/query.py:75-88 | A first season listing exactly one league learns that league's name and parses the league with its id. |
| QueryEngine.ParseKeepsName | src/query.py:108-182 | `parse_query` never changes the league name. |
| QueryEngine.ReplaceInColumn | src/query.py:292 | Every cell of the column is replaced by the literal `str.replace` of the pattern, in place. |
| QueryEngine.ApplyManagerAliases | src/query.py:275-295 | A missing file raises, and so does an empty frame with a non-empty alias map. Otherwise the manager column, and the opponent column when present, are rewritten by every alias pair in file order. Nothing else changes. |
| QueryEngine.AliasData | src/query.py:327 | The alias pass over data.csv yields the table whose manager and opponent names are aliased row by row. |
| QueryEngine.AliasStandings | src/query.py:381 | The alias pass over standings.csv rewrites the manager names only. |
| QueryEngine.Query.constructor | src/query.py:28-50 | A fresh query has no league name and four empty tables. |
| QueryEngine.Query.RunQuery | src/query.py:75-91 | The method returns the id or the error of the resolution and stores the league name it settles on. No other table changes. |
| QueryEngine.Query.RecordTransactions | src/query.py:133-141 | The transaction loop leaves the outcome and the trade map of the trade-log specification `Parse.RecordTrades`, stopping at the first bad key; no other table changes. |
| QueryEngine.Query.RecordStandingsTable | src/query.py:143-152 | The standings loop leaves the standings map `Parse.RecordStandings` specifies; no other table changes. |
| QueryEngine.Query.ExtractMatchupData | src/query.py:186-258 | The weekly records gain `me`'s entry for the week: both scores, the opponent, and the summary of `me`'s roster. No other table changes. |
| QueryEngine.Query.RecordScoreboard | src/query.py:163-182 | One week's matchups are recorded in order. The first tie stops the run with the week's tie error; no other table changes. |
| QueryEngine.Query.RecordAllWeeks | src/query.py:155-182 | Weeks 1 to the current week are recorded in order, skipping weeks with no scoreboard and stopping at a tie. |
| QueryEngine.Query.RecordPodium | src/query.py:129-131 | The first three standings entries become 1st, 2nd and 3rd. A shorter list raises after the places before it are written. |
| QueryEngine.Query.ParseQuery | src/query.py:121-182 | `parse_query` records the winners, trades, standings and weeks, in that order, stopping at the first error; the result is `Parse.ParseLeague`. |
| QueryEngine.Query.SaveData | src/query.py:297-382 | `save_data` writes the three tables `Save.SaveSpec` gives for the current tables and alias file, or stops where the alias pass raises. |
| QueryEngine.Query.QueryAllSeasons | src/query.py:268-271 | The seasons of the range are each resolved and parsed, in order, up to the first exception. |
| QueryEngine.Query.QuerySeason | src/query.py:270-271 | One season runs `run_query`, then, unless it raised, `parse_query` on the league it found. |
| QueryEngine.Query.QuerySeasons | src/query.py:261-273 | `query_seasons` runs every season, then saves only when no season raised. |
| Parse.RecordWinnersOutcome | src/query.py:129-131 | Recording the podium goes on exactly when the standings have at least three entries. |
| Parse.PutPlaceRead | src/query.py:129-131 | Writing a place sets it and leaves the season's other places alone. |
| Parse.RecordWinnersPlaces | src/query.py:129-131 | With three or more entries, 1st, 2nd and 3rd are the first three standings nicknames. |
| Parse.RecordWinnersOthers | src/query.py:129-131 | Other seasons' winners are unchanged. |
| Parse.RecordTradesStops | src/query.py:133-141 | The first exception in the transaction log ends the loop. |
| Parse.NonTradesIgnored | src/query.py:134 | A log with no trade leaves the trade map as it was. |
| Parse.RecordTradesAppends | src/query.py:133-141 | A completed loop leaves the season's list as the earlier entries followed by the (tradee, trader) nickname tuples of the log's trades, in log order, one per trade. Other seasons are left alone. |
| Parse.TradeOfIndices | src/query.py:135-141 | A trade whose keys name teams a (tradee) and b (trader), counted from 1, appends (nickname of team a, nickname of team b). |
| Parse.TeamIndexOfKey | src/query.py:135-136 | The team number n in a key `<prefix>.<n>` maps to list index n - 1. |
| Parse.TradeOfTeamKeys | src/query.py:135-141 | A trade between the a-th and b-th team appends their nicknames, tradee first, when the keys are written as Yahoo issues them. |
| Parse.RecordStandingsKeys | src/query.py:143-152 | A season seen for the first time gets a table only if it has standings. Its managers are the standings' nicknames in order of first appearance, each once. |
| Parse.RecordStandingsLastWins | src/query.py:143-152 | Each manager holds the six statistics of their last standings entry. |
| Parse.RecordStandingsOthers | src/query.py:143-152 | Other seasons' standings are unchanged. |
| Parse.HasTieMeaning | src/query.py:171 | A week has a tie exactly when some matchup is flagged tied. |
| Parse.RecordMatchupsNext | src/query.py:163-182 | Until a tie, the week's loop goes on with the next matchup. |
| Parse.RecordMatchupsStops | src/query.py:171-177 | A tie ends the week's loop. |
| Parse.RecordMatchupsOutcome | src/query.py:163-182 | A week's matchups pass exactly when none is tied. A failure is the tie error of that season and week. |
| Parse.RecordWeeksStops | src/query.py:155-177 | A tie in some week ends the week loop there. |
| Parse.RecordWeeksOutcome | src/query.py:155-182 | The week loop passes exactly when no existing scoreboard of weeks 1 to the current week holds a tie. |
| Parse.PutRecordRead | src/query.py:209-258 | A stored record reads back, and storing it changes no other manager's record. |
| Parse.MirrorRecords | src/query.py:181-182 | The two sides of an untied matchup get mirror records: each one's opponent is the other, and each one's opponent points and projection are the other's own. |
| Parse.TieWritesNothing | src/query.py:171-179 | A tied matchup stops the run before anything is written. |
| Parse.PutRecordWeekKeys | src/query.py:179 | Storing a record adds its week to the season's week list only if the week is new. |
| Parse.PutRecordOthers | src/query.py:179 | Storing a record leaves other seasons alone. |
| Parse.RecordMatchupsWeekKeys | src/query.py:163-182 | One week's matchups add at most that week to the season's week list, and a week with at least one matchup and no tie is added. |
| Parse.RecordMatchupsOthers | src/query.py:163-182 | One week's matchups leave other seasons alone. |
| Parse.RecordWeeksKeys | src/query.py:155-161 | For a new season, the stored weeks are strictly increasing, each between 1 and the current week, and each has a scoreboard; missing scoreboards are skipped. |
| Parse.RecordWeeksComplete | src/query.py:155-182 | When the week loop goes through, every week from 1 to the current week whose scoreboard has matchups is among the season's stored weeks, even after a skipped week. Both managers of each of its matchups have a record for that week. |
| Parse.RecordWeeksOthers | src/query.py:155-182 | The week loop leaves other seasons alone. |
| Roster.AggregateRoster | src/query.py:219-258 | The player loop computes the roster summary `Roster.Summarize` defines. |
| Roster.PlayerTeamsAt | src/query.py:234 | A team's `player_teams` count is its number of rostered players, bench included; the team is a key exactly when that number is positive. |
| Roster.PlayerTeamsSum | src/query.py:234 | The `player_teams` counts add up to the roster size. |
| Roster.PlayerTeamsMeaning | src/query.py:234 | The same, for every team at once. |
| Roster.StarterTeamsAt | src/query.py:236-241 | A team's `starter_teams` count is its number of starters, excluding the bench; the team is a key exactly when that is positive. |
| Roster.StarterTeamsSum | src/query.py:236-241 | The `starter_teams` counts add up to the number of starters. |
| Roster.StarterTeamsMeaning | src/query.py:236-241 | The same, for every team at once. |
| Roster.PositionPointsAt | src/query.py:236-239 | `pos_pts` of a slot is the sum of its starters' points; the slot is a key exactly when a starter fills it. |
| Roster.PositionPointsMeaning | src/query.py:236-239 | The same, for every slot at once. |
| Roster.MaxScoreMeaning | src/query.py:226-243 | `max_player_score` bounds every starter's points from above and is at least the -1e9 sentinel. It is the sentinel or some starter's score; bench players play no part. |
| Roster.MinScoreMeaning | src/query.py:227-244 | `min_player_score` is the mirror image, with the 1e9 sentinel. |
| Roster.NoStarters | src/query.py:226-249 | A roster with no starter keeps both sentinels and zero counters, and leaves `starter_teams` and `pos_pts` empty. |
| Roster.StarterCounters | src/query.py:246-249 | Zero-point and negative starters together are at most the number of starters, and so are bye-week starters. |
| Save.ManagerRowsSound | src/query.py:309-319 | Every row of one week is a stored entry of that week. |
| Save.ManagerRowsUnique | src/query.py:309-319 | The rows of one week have distinct (season, week, manager) keys. |
| Save.ManagerRowsComplete | src/query.py:309-319 | Every stored entry of the week has its row. |
| Save.WeekRowsKeys | src/query.py:305-319 | A season's rows carry that season and one of its weeks. |
| Save.WeekRowsSound | src/query.py:305-319 | Every row of a season is a stored entry. |
| Save.WeekRowsUnique | src/query.py:305-319 | A season's rows have distinct keys. |
| Save.WeekRowsComplete | src/query.py:305-319 | Every stored entry of the season has its row. |
| Save.SeasonRowsKeys | src/query.py:303-319 | Every row's season is one of the flattened seasons. |
| Save.SeasonRowsSound | src/query.py:303-319 | Every row is a stored entry. |
| Save.SeasonRowsUnique | src/query.py:303-319 | The rows have distinct keys. |
| Save.SeasonRowsComplete | src/query.py:303-319 | Every stored entry has its row. |
| Save.FlattenMeaning | src/query.py:301-319 | data.csv has exactly one row per stored (season, week, manager) record, carrying that record's statistics, and no other rows. |
| Save.StandingsRowsSound | src/query.py:367-376 | Every standings row of a season is a stored entry. |
| Save.StandingsRowsUnique | src/query.py:367-376 | A season's standings rows have distinct managers. |
| Save.StandingsRowsComplete | src/query.py:367-376 | Every stored standings entry of the season has its row. |
| Save.StandingsSeasonRowsSound | src/query.py:364-376 | Every standings row is a stored entry. |
| Save.StandingsSeasonRowsUnique | src/query.py:364-376 | The standings rows have distinct (season, manager) keys. |
| Save.StandingsSeasonRowsComplete | src/query.py:364-376 | Every stored standings entry has its row. |
| Save.FlattenStandingsMeaning | src/query.py:364-376 | standings.csv has exactly one row per stored (season, manager) entry, carrying its statistics. |
| Save.AliasNameUnchanged | src/query.py:291-295 | A name containing none of the non-empty alias keys is left unchanged. |
| Save.AliasSingle | src/query.py:291-292 | With a single alias, a name equal to its key becomes the alias. |
| Save.AliasColumnStep | src/query.py:291-295 | Each alias pair rewrites the column once more with a literal replace. |
| Save.AliasByColumns | src/query.py:291-295 | Rewriting the frame's manager and opponent columns is rewriting the names in each row. |
| Save.AliasStandingsByColumn | src/query.py:291-292 | The same for standings, which has no opponent column. |
| Save.SeasonTradeRowsMeaning | src/query.py:340-358 | A season gets one row per trade, in order. The first name of the tuple becomes the trader and the second the tradee, each looked up in the alias map. |
| Save.LookupMeaning | src/query.py:342-350 | A name with an alias entry becomes exactly that alias and any other name is kept; no substring matching. |
| Save.TradeRowsSeasons | src/query.py:336-358 | transactions.csv holds only seasons that have weekly records. |
| Save.TradeRowsCount | src/query.py:336-358 | transactions.csv holds as many rows as those seasons have trades. |
| Save.SaveOutcome | src/query.py:297-382 | With no alias file nothing is written. data.csv and transactions.csv are written unless an empty weekly table meets a non-empty alias map. standings.csv is written exactly when the run completes. |
| Save.FlattenWeek | src/query.py:309-319 | The manager loop emits one week's rows in key order. |
| Save.FlattenSeason | src/query.py:305-319 | The week loop emits one season's rows. |
| Save.FlattenRecords | src/query.py:302-319 | The nested loops produce the data.csv rows `Save.Flatten` specifies. |
| Save.FlattenStandingsSeason | src/query.py:367-376 | The manager loop emits one season's standings rows. |
| Save.FlattenStandingsTable | src/query.py:364-376 | The nested loops produce the standings rows `Save.FlattenStandings` specifies. |
| Save.CollectTrades | src/query.py:335-358 | The trade loop produces the transactions.csv rows `Save.TradeRows` specifies. |
| Awards.FirstMaxIndex | src/awards.py:67 | `idxmax` is the first row with the largest `max_player_score`. |
| Awards.FirstMinIndex | src/awards.py:68 | `idxmin` is the first row with the smallest `max_player_score`. |
| Awards.InitialScorers | src/awards.py:55-56 | Both counters start at 0 for exactly the managers, in order. |
| Awards.CreditSliceKeys | src/awards.py:62-71 | Crediting a slice adds no key: both credited managers are managers of the data. |
| Awards.CreditWeeksKeys | src/awards.py:60-71 | The week loop keeps the counters' keys. |
| Awards.CreditSeasonsKeys | src/awards.py:58-71 | The season loop keeps the counters' keys. |
| Awards.CreditWeeksSum | src/awards.py:60-71 | Each non-empty (season, week) slice adds exactly one point to each counter; empty slices add none. |
| Awards.CreditSeasonsSum | src/awards.py:58-71 | Over all seasons, each counter gains the number of non-empty slices. |
| Awards.BestScoresMeaning | src/awards.py:45-71 | Both printed counters have exactly the managers as keys, in order of first appearance, and each totals the number of non-empty (season, week) slices. |
| Awards.CreditSeason | src/awards.py:60-71 | The week loop of one season computes `Awards.CreditWeeks`. |
| Awards.CreditAllSeasons | src/awards.py:58-71 | The season loop computes `Awards.CreditSeasons`. |
| Awards.AwardBestScores | src/awards.py:45-71 | `award_best_scores` computes the two counters `Awards.BestScores` specifies. |
| Awards.FirstMaxAt | src/awards.py:104-106 | The first entry after a stable descending sort is the earliest entry with the largest count. |
| Awards.AddTeamsCount | src/awards.py:101-102 | Adding one row's `player_teams` raises each listed team's total by its count and no other total. |
| Awards.AddTeamsKeys | src/awards.py:101-102 | A team has a total afterwards exactly when it had one or the row lists it. |
| Awards.AddRowsCount | src/awards.py:97-102 | After a slice, each team's total has grown by its count summed over the slice's rows. |
| Awards.AddRowsKeys | src/awards.py:97-102 | After a slice, a team has a total exactly when it had one or some row of the slice lists it. |
| Awards.AddSeasonsCount | src/awards.py:93-102 | After the season loop, each team's total is the grouped sum of its counts over the manager's rows of those seasons. |
| Awards.AddSeasonsKeys | src/awards.py:93-102 | After the season loop, a team has a total exactly when one of the manager's rows in those seasons lists it. |
| Awards.TeamTotalsSum | src/awards.py:91-102 | A manager's total for a team is that team's count summed over all of the manager's rows. |
| Awards.TeamTotalsKeys | src/awards.py:91-102 | A team has a total exactly when one of the manager's rows lists it. |
| Awards.FavoriteIsMax | src/awards.py:104-106 | The favourite has the largest total, and every team inserted before it a strictly smaller one. |
| Awards.FavoriteListed | src/awards.py:104-106 | The favourite is a team the manager's rows list. |
| Awards.FavoriteBeats | src/awards.py:91-106 | No team the manager lists has a larger count over their rows than the favourite. |
| Awards.FavoritesOutcome | src/awards.py:89-106 | The manager loop fails exactly when some manager has no favourite, and then with that manager. |
| Awards.FavoritesKeys | src/awards.py:87-106 | With distinct managers, the keys of `favorite_teams` are the managers in loop order. |
| Awards.FavoritesValues | src/awards.py:106 | A manager is mapped to the favourite of their last pick. |
| Awards.FavoritesFor | src/awards.py:84-106 | With one pick per manager, the keys are the managers and each maps to their pick's favourite. |
| Awards.PickAt | src/awards.py:91-106 | A manager has a favourite exactly when one of their rows lists a team; that favourite is the first maximum of their totals. |
| Awards.FavoriteTeamsFails | src/awards.py:76-106 | `award_favorite_team` raises exactly when some manager's rows list no team at all. |
| Awards.FavoriteTeamsError | src/awards.py:104-106 | The error names a manager of the data whose rows list no team. |
| Awards.FavoriteTeamsValues | src/awards.py:76-106 | Otherwise every manager, in order of first appearance, maps to the first maximum of their team totals. |
| Awards.HasTotals | src/awards.py:91-106 | A manager's totals are non-empty exactly when one of their rows lists a team. |
| Awards.AddPlayerTeams | src/awards.py:101-102 | The loop over one row's `player_teams` computes `Awards.AddTeams`. |
| Awards.AddSlice | src/awards.py:99-102 | The loop over a slice's rows computes `Awards.AddRows`. |
| Awards.ManagerTeamTotals | src/awards.py:91-102 | The season loop computes a manager's `player_teams_total`. |
| Awards.FavoritesStop | src/awards.py:89-106 | An error in the manager loop is the loop's result. |
| Awards.AwardFavoriteTeam | src/awards.py:76-106 | `award_favorite_team` returns the favourites `Awards.FavoriteTeams` specifies, or its IndexError. |
| ContentGen.EntryCounts | src/contentgen.py:50-55 | Each count of a manager's entry is the number of their standings rows meeting its threshold: seed at most 6, seed at most 2, rank at most 2, rank 1. |
| ContentGen.EntryBounds | src/contentgen.py:52-55 | Byes never exceed playoff appearances and titles never exceed championship appearances; no count exceeds the manager's number of rows. |
| ContentGen.ChartManagersOrder | src/contentgen.py:44 | The managers are in strictly ascending string order. |
| ContentGen.ChartManagersCover | src/contentgen.py:44 | The chart's managers are exactly the managers of the standings rows. |
| ContentGen.GenerateChartData | src/contentgen.py:38-63 | `generate_chart_data` emits one entry per sorted manager, each the counts of `ContentGen.EntryFor`. |
| Plotting.CellHasRecord | src/plotting.py:133-166 | A heatmap cell has a record exactly when it is not a self-pairing and some row has that manager against that opponent. |
| Plotting.CellRecordMeaning | src/plotting.py:145-155 | Wins count the pairing's rows with more points than the opponent, losses those with fewer. A tie counts for neither, so wins plus losses is at most the number of meetings. |
| Plotting.HeatmapRow | src/plotting.py:130-166 | The opponent loop yields one cell per opponent, in order. |
| Plotting.HeatGridLength | src/plotting.py:129-166 | The grid has one cell per (manager, opponent) pair. |
| Plotting.HeatGridAt | src/plotting.py:129-166 | Cell i * n + j pairs the i-th manager with the j-th opponent. |
| Plotting.HeatmapGrid | src/plotting.py:129-166 | The manager loop yields the grid `Plotting.HeatGrid` specifies. |
| Plotting.HeatmapCells | src/plotting.py:122-166 | `plot_proj_heatmap` builds the grid over the sorted managers. |
| Plotting.PairNetValue | src/plotting.py:613-620 | A (season, manager) amount that raises nothing comes from exactly one standings row and is that row's payout minus dues. |
| Plotting.WinManagersOk | src/plotting.py:611-620 | A season's manager loop succeeds exactly when every manager's amount does. |
| Plotting.WinManagersErr | src/plotting.py:611-620 | A raised error passes through the rest of the loop. |
| Plotting.WinManagersValue | src/plotting.py:611-620 | Each manager of the loop gains their amount; nobody else changes. |
| Plotting.WinManagersKeys | src/plotting.py:607-620 | Adding to existing keys keeps the keys. |
| Plotting.WinSeasonsOk | src/plotting.py:609-620 | The ledger succeeds exactly when every season does. |
| Plotting.WinSeasonsEvery | src/plotting.py:609-620 | The ledger succeeds exactly when every (season, manager) amount does. |
| Plotting.WinSeasonsManager | src/plotting.py:609-620 | On success, a manager has an amount in every season. |
| Plotting.WinSeasonsKeys | src/plotting.py:607-620 | The season loop keeps the ledger's keys. |
| Plotting.WinSeasonsValue | src/plotting.py:609-620 | Each manager gains their amount season by season. |
| Plotting.SeasonTotalGrouped | src/plotting.py:609-620 | A manager's amounts over the seasons are the per-season sums of their net winnings. |
| Plotting.WinningsOk | src/plotting.py:605-620 | `plot_winnings` succeeds exactly when every (season, manager) pair has exactly one standings row, its season has dues and its rank indexes the payouts. |
| Plotting.WinningsOneRow | src/plotting.py:613-616 | On success, every (season, manager) pair has exactly one standings row. |
| Plotting.WinningsKeys | src/plotting.py:607-620 | On success, the ledger's keys are the standings' managers in order of first appearance. |
| Plotting.ManagerNet | src/plotting.py:609-620 | A manager's amounts over the seasons add up to their net winnings over all their rows. |
| Plotting.WinningsValue | src/plotting.py:605-620 | On success, each manager holds the sum over their standings rows of payout at rank minus dues. |
| Plotting.WinManagersStops | src/plotting.py:611-620 | An error part-way through the managers is the season's result. |
| Plotting.WinSeasonsStops | src/plotting.py:609-620 | An error part-way through the seasons is the ledger's result. |
| Plotting.PairAmount | src/plotting.py:613-620 | The right-hand side of the update is computed: `.item()` on the rank, then a payout lookup with Python indexing, minus the dues. It is `Plotting.PairNet`, errors included. |
| Plotting.WinSeason | src/plotting.py:611-620 | The inner loop computes `Plotting.WinManagers` for the season. |
| Plotting.PlotWinnings | src/plotting.py:595-621 | `plot_winnings` computes the ledger `Plotting.Winnings`, or the exception raised. |
| Plotting.InsertByCountMultiset | src/plotting.py:1015 | Inserting a bar keeps every other bar. |
| Plotting.InsertByCountDescending | src/plotting.py:1015 | Inserting a bar into descending bars keeps them descending. |
| Plotting.SortByCount | src/plotting.py:1015 | The sort is a permutation of the bars. |
| Plotting.SortByCountDescending | src/plotting.py:1015 | The sorted bars are in descending order of count. |
| Plotting.TradeCountZero | src/plotting.py:1003-1012 | A manager's count is 0 exactly when no trade names them in either role. |
| Plotting.TotalTradesDescending | src/plotting.py:1015 | The bars are in descending order of count. |
| Plotting.TotalTradesBars | src/plotting.py:1000-1015 | Every manager of the weekly table has exactly one bar, with their trader count plus tradee count; no one else has a bar. |
| Plotting.AddNode | src/plotting.py:1051 | Adding a node makes it a node and adds nothing else. |
| Plotting.EdgeOfEither | src/plotting.py:1044-1048 | A trade lies on edge {a, b} exactly when it is between a and b in either role. |
| Plotting.EdgeWeightsCount | src/plotting.py:1041-1048 | An edge's weight is the number of trades on it. |
| Plotting.EdgeWeightBetween | src/plotting.py:1041-1048 | The weight between two managers counts their trades in either direction. |
| Plotting.EdgeWeightsSum | src/plotting.py:1044-1048 | The weights sum to the number of trades. |
| Plotting.EdgeWeightsEdges | src/plotting.py:1044-1048 | Every edge is that of some trade. |
| Plotting.EdgeWeightsPositive | src/plotting.py:1045-1048 | Every edge has weight at least 1. |
| Plotting.AddNodesMeaning | src/plotting.py:1051 | `add_nodes_from` adds exactly the given nodes. |
| Plotting.AddNodesDistinct | src/plotting.py:1051 | Adding nodes never duplicates one. |
| Plotting.EdgeNodesDistinct | src/plotting.py:1044-1048 | The edge loop creates each node once. |
| Plotting.EdgeNodesMeaning | src/plotting.py:1044-1048 | The edge loop creates a node exactly for every trading party. |
| Plotting.GraphNodesMeaning | src/plotting.py:1040-1051 | The graph's nodes are every trading party and every manager, each once. |
| Plotting.EdgeWeightsNodes | src/plotting.py:1045-1048 | The endpoints of an existing edge are already nodes. |
| Plotting.TradeEdges | src/plotting.py:1040-1048 | The edge loop (`has_edge`, then an increment or a new edge of weight 1) computes `Plotting.EdgeWeights` and `Plotting.EdgeNodes`. |
| Plotting.TradeGraph | src/plotting.py:1040-1051 | The edges, then every manager added as a node. |
| Plotting.PlotTradeMapping | src/plotting.py:1032-1051 | `plot_trade_mapping`'s graph over the weekly table's managers. |
| PySeq.CountIf | src/contentgen.py:52 | The sum of a boolean mask is at most the number of rows. |
| PySeq.CountIfZero | src/plotting.py:1010-1012 | A mask sums to 0 exactly when no row satisfies it. |
| PySeq.Unique | src/awards.py:51 | `unique()` lists every value exactly once, only values that occur, and no more of them than rows. |
| PySeq.UniqueOrder | src/awards.py:51 | `unique()` lists the values in order of first appearance: the first occurrences of its entries come in increasing order. |
| PySeq.Position | src/query.py:139-140 | Python's `teams[i]` reads position i, or n + i for a negative i. |
| PySeq.SortStrings | src/contentgen.py:44 | `sorted` is a permutation. |
| PySeq.SortStringsSorted | src/contentgen.py:44 | `sorted` yields ascending order. |
| PySeq.SortedUnique | src/contentgen.py:44 | `sorted(unique())` lists every value of the column exactly once. |
| PySeq.SortedUniqueSorted | src/contentgen.py:44 | The result is ascending. |
| PyStr.Interleave | src/query.py:292 | Replacing the empty pattern inserts the replacement around every character. |
| PyStr.ReplaceAbsent | src/query.py:292 | A replace whose non-empty pattern does not occur changes nothing. |
| PyStr.ReplaceRepeated | src/query.py:292 | Every occurrence is replaced: n copies of the pattern become n copies of the replacement. |
| PyStr.LastSegmentMeaning | src/query.py:135 | `rsplit('.')[-1]` holds no dot, ends the key, and is the whole key or follows its last dot. |
| PyStr.LastSegmentAfterDot | src/query.py:135 | The text after a final dot is the last segment. |
| PyStr.DecimalValue | src/query.py:135 | A decimal rendering denotes its number. |
| PyStr.ParseDecimal | src/query.py:135 | `int(str(n)) == n`. |
| PyStr.TeamKeyNumber | src/query.py:135-136 | The number ending a team key is recovered by `int(key.rsplit('.')[-1])`. |
| PyDict.PutRead | src/query.py:147 | After `d[k] = v` a key is present exactly when it is `k` or was present before; `k` reads `v` and every other key reads as before. |
| PyDict.PutOrder | src/query.py:147 | Assigning a key keeps the old keys in place; the key list grows by one exactly for a new key, which goes last. |
| PyDict.AddIntRead | src/query.py:234 | `+=` on a `defaultdict(int)` adds x at the key, a missing key counting 0, leaves every other value alone, and appends a new key at the end. |
| PyDict.AddRealRead | src/query.py:239 | The same for float point totals. |
| PyDict.FromKeysMembers | src/awards.py:55 | `dict.fromkeys(ks, v)` holds exactly the keys of `ks`, each reading `v`. |
| PyDict.SumAddInt | src/query.py:234 | Adding x to one entry adds x to the sum of the values. |
| Tally.FilterMeaning | src/contentgen.py:50 | A mask selection holds as many rows as satisfy the mask, only such rows, and each of them. |
| Tally.CountIfFilter | src/contentgen.py:50-55 | Counting a second mask within a selection counts the rows satisfying both. |
| Tally.SumWhereOne | src/plotting.py:613-616 | When the mask selects one row, `.item()` reads that row. |
| Tally.GroupedSumMeaning | src/plotting.py:609-620 | Summing group by group over distinct group values equals summing over the rows whose value is among them. |
| Tally.GroupedSumCovered | src/plotting.py:609-620 | When the groups cover every selected row, the group sums add up to the whole selection. |

## Left out

- The Yahoo API is not modelled: the provider's answers are inputs. The game-key lookup and the league listing are folded into `Provider.leagues`. The second `YahooFantasySportsQuery` that `run_query` returns is represented by the league id alone.
- The one-second pacing `sleep` calls are left out; they only delay.
- Every `print` is left out. The `exit(2)` on a tie is the `Tie` error value.
- File I/O is left out: the data directory, CSV writing and reading, and `json.load`. The alias file is passed as its parsed content (None when absent). `league_dues.json` is passed as a map from season to payouts and dues. `plot_winnings` looks its keys up as `f'{season}'` strings; the map is keyed by the season number instead.
- The CSV round trip is left out. `player_teams` is written as dictionary text and read back with `eval`; the awards receive the dictionary itself. pandas' union of columns across rows is not modelled: every row has every column.
- Floating point is left out. Points are exact reals, so the sentinels ±1e9 and the comparisons with 0.0 are exact, and NaN cells are plain "no record" cells.
- The heatmap's average point delta (`point_diff` mean), its annotation strings and the pivot are left out; the model keeps each cell's win-loss record only.
- Rendering is left out: matplotlib, seaborn and networkx drawing, layouts, titles and saved figures.
- `Plotting.SortByCount`: pandas' `sort_values` does not promise an order among equal counts. The model uses a stable insertion sort, and its contract promises only a descending permutation.
- `str.replace` is modelled with a literal pattern. Under pandas versions whose default is a regular expression, alias keys containing regex metacharacters behave differently.
- `Awards.__init__`, `Awards.run`, `ContentGenerator.generate_page` and the other plots are outside this model.
- Empty tables: `save_data` saves a table with no rows as a frame with no columns (`src/query.py:322`, 360, 379), and the readers then raise on the missing column (`src/awards.py:51`, `src/contentgen.py:44`, `src/plotting.py:124`, 607, 1003, 1041). The model reads such a table as zero rows: `Awards.AwardBestScores`, `Awards.AwardFavoriteTeam`, `ContentGen.GenerateChartData`, `Plotting.HeatmapCells`, `Plotting.PlotWinnings`, `Plotting.TotalTrades` and `Plotting.PlotTradeMapping` return empty or zero results there instead of raising.
- PyStr.ParseInt: accepts an optional sign and ASCII digits only. Python's `int()` at `src/query.py:135-136` also accepts surrounding blanks, `_` separators and non-ASCII decimal digits; the model reports such team keys as `BadTeamKey`.
- The `dues` entry of a season is always present in the model. Only a missing season key, a (season, manager) selection without exactly one row (`.item()`), and a bad payout index raise.
