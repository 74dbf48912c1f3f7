/** The reduction of one manager's weekly roster to the summary columns of
    a data row (the player loop of `Query.extract_matchup_data`). */
module Roster {
  import opened PySeq
  import opened PyDict
  import opened Records

  /** The lineup slot of a player on the bench. */
  const Bench: string := "BN"

  /** Start values of the running maximum and minimum (`-1e9` and `1e9`). */
  const InitialMax: real := -1000000000.0
  const InitialMin: real := 1000000000.0

  predicate IsStarter(p: Player) {
    p.position != Bench
  }

  datatype Summary = Summary(
    playerTeams: Dict<string, int>,
    starterTeams: Dict<string, int>,
    posPts: Dict<string, real>,
    maxScore: real,
    minScore: real,
    zeroPt: nat,
    negPt: nat,
    byeStarters: nat)

  /** Python's `max(a, b)` and `min(a, b)`. */
  function Max(a: real, b: real): real { if b > a then b else a }
  function Min(a: real, b: real): real { if b < a then b else a }

  function B2I(b: bool): nat { if b then 1 else 0 }

  // Each column as the loop leaves it after the players `ps`, in order.

  function PlayerTeams(ps: seq<Player>): Dict<string, int> {
    if ps == [] then Empty()
    else AddInt(PlayerTeams(ps[..|ps| - 1]), ps[|ps| - 1].teamAbbr, 1)
  }

  function StarterTeams(ps: seq<Player>): Dict<string, int> {
    if ps == [] then Empty()
    else
      var p := ps[|ps| - 1];
      var d := StarterTeams(ps[..|ps| - 1]);
      if IsStarter(p) then AddInt(d, p.teamAbbr, 1) else d
  }

  function PositionPoints(ps: seq<Player>): Dict<string, real> {
    if ps == [] then Empty()
    else
      var p := ps[|ps| - 1];
      var d := PositionPoints(ps[..|ps| - 1]);
      if IsStarter(p) then AddReal(d, p.position, p.points) else d
  }

  function MaxStarterScore(ps: seq<Player>): real {
    if ps == [] then InitialMax
    else
      var p := ps[|ps| - 1];
      var m := MaxStarterScore(ps[..|ps| - 1]);
      if IsStarter(p) then Max(m, p.points) else m
  }

  function MinStarterScore(ps: seq<Player>): real {
    if ps == [] then InitialMin
    else
      var p := ps[|ps| - 1];
      var m := MinStarterScore(ps[..|ps| - 1]);
      if IsStarter(p) then Min(m, p.points) else m
  }

  predicate ScoredZero(p: Player) { IsStarter(p) && p.points == 0.0 }
  predicate ScoredNegative(p: Player) { IsStarter(p) && p.points < 0.0 }

  /** The starters whose team has its bye in `week`. */
  function ByeCount(ps: seq<Player>, week: int): nat {
    CountIf(ps, (p: Player) => IsStarter(p) && p.byeWeek == week)
  }

  function StarterCount(ps: seq<Player>): nat {
    CountIf(ps, IsStarter)
  }

  /** The summary of a roster in week `week`. */
  function Summarize(ps: seq<Player>, week: int): Summary {
    Summary(PlayerTeams(ps), StarterTeams(ps), PositionPoints(ps), MaxStarterScore(ps),
      MinStarterScore(ps), CountIf(ps, ScoredZero), CountIf(ps, ScoredNegative), ByeCount(ps, week))
  }

  method AggregateRoster(players: seq<Player>, week: int) returns (s: Summary)
    ensures s == Summarize(players, week)
  {
    var editorialTeams: Dict<string, int> := Empty();
    var editorialTeamsStarters: Dict<string, int> := Empty();
    var posPts: Dict<string, real> := Empty();
    var maxPlayerScore := InitialMax;
    var minPlayerScore := InitialMin;
    var zeroPtStarters: nat := 0;
    var negPtStarters: nat := 0;
    var byeStarts: nat := 0;
    for i := 0 to |players|
      invariant editorialTeams == PlayerTeams(players[..i])
      invariant editorialTeamsStarters == StarterTeams(players[..i])
      invariant posPts == PositionPoints(players[..i])
      invariant maxPlayerScore == MaxStarterScore(players[..i])
      invariant minPlayerScore == MinStarterScore(players[..i])
      invariant zeroPtStarters == CountIf(players[..i], ScoredZero)
      invariant negPtStarters == CountIf(players[..i], ScoredNegative)
      invariant byeStarts == ByeCount(players[..i], week)
    {
      var player := players[i];
      assert players[..i + 1][..i] == players[..i];
      assert players[..i + 1][i] == player;
      editorialTeams := AddInt(editorialTeams, player.teamAbbr, 1);
      if player.position == Bench {
        continue;
      }
      posPts := AddReal(posPts, player.position, player.points);
      editorialTeamsStarters := AddInt(editorialTeamsStarters, player.teamAbbr, 1);
      maxPlayerScore := Max(maxPlayerScore, player.points);
      minPlayerScore := Min(minPlayerScore, player.points);
      zeroPtStarters := zeroPtStarters + B2I(player.points == 0.0);
      negPtStarters := negPtStarters + B2I(player.points < 0.0);
      byeStarts := byeStarts + B2I(player.byeWeek == week);
    }
    assert players[..|players|] == players;
    s := Summary(editorialTeams, editorialTeamsStarters, posPts, maxPlayerScore,
      minPlayerScore, zeroPtStarters, negPtStarters, byeStarts);
  }

  // ---- what the summary means ----

  /** The mask "a player of real-world team `abbr`". */
  function OnTeam(abbr: string): Player -> bool {
    (p: Player) => p.teamAbbr == abbr
  }

  /** The mask "a starter of real-world team `abbr`". */
  function StartsFor(abbr: string): Player -> bool {
    (p: Player) => IsStarter(p) && p.teamAbbr == abbr
  }

  function CountTeam(ps: seq<Player>, abbr: string): nat {
    CountIf(ps, OnTeam(abbr))
  }

  function CountStarterTeam(ps: seq<Player>, abbr: string): nat {
    CountIf(ps, StartsFor(abbr))
  }

  /** The points scored by the starters in lineup slot `pos`. */
  function SlotPoints(ps: seq<Player>, pos: string): real {
    if ps == [] then 0.0
    else
      var p := ps[|ps| - 1];
      SlotPoints(ps[..|ps| - 1], pos) + (if IsStarter(p) && p.position == pos then p.points else 0.0)
  }

  lemma {:induction false} PlayerTeamsAt(ps: seq<Player>, k: string)
    ensures GetOr(PlayerTeams(ps), k, 0) == CountTeam(ps, k)
    ensures k in PlayerTeams(ps).vals <==> CountTeam(ps, k) > 0
  {
    if ps != [] {
      PlayerTeamsAt(ps[..|ps| - 1], k);
    }
  }

  lemma {:induction false} PlayerTeamsSum(ps: seq<Player>)
    ensures Sum(PlayerTeams(ps)) == |ps|
  {
    if ps != [] {
      var n := |ps| - 1;
      PlayerTeamsSum(ps[..n]);
      SumAddInt(PlayerTeams(ps[..n]), ps[n].teamAbbr, 1);
    }
  }

  /** `player_teams` counts every rostered player, bench included, per
      real-world team; a team is a key exactly when one of its players is
      rostered; the counts add up to the roster size. */
  lemma PlayerTeamsMeaning(ps: seq<Player>)
    ensures forall k :: GetOr(PlayerTeams(ps), k, 0) == CountTeam(ps, k)
    ensures forall k :: k in PlayerTeams(ps).vals <==> CountTeam(ps, k) > 0
    ensures Sum(PlayerTeams(ps)) == |ps|
  {
    forall k ensures GetOr(PlayerTeams(ps), k, 0) == CountTeam(ps, k) && (k in PlayerTeams(ps).vals <==> CountTeam(ps, k) > 0) {
      PlayerTeamsAt(ps, k);
    }
    PlayerTeamsSum(ps);
  }

  lemma {:induction false} StarterTeamsAt(ps: seq<Player>, k: string)
    ensures GetOr(StarterTeams(ps), k, 0) == CountStarterTeam(ps, k)
    ensures k in StarterTeams(ps).vals <==> CountStarterTeam(ps, k) > 0
  {
    if ps != [] {
      StarterTeamsAt(ps[..|ps| - 1], k);
    }
  }

  lemma {:induction false} StarterTeamsSum(ps: seq<Player>)
    ensures Sum(StarterTeams(ps)) == StarterCount(ps)
  {
    if ps != [] {
      var n := |ps| - 1;
      StarterTeamsSum(ps[..n]);
      assert StarterCount(ps) == StarterCount(ps[..n]) + B2I(IsStarter(ps[n]));
      if IsStarter(ps[n]) {
        SumAddInt(StarterTeams(ps[..n]), ps[n].teamAbbr, 1);
      }
    }
  }

  /** `starter_teams` counts only the players not on the bench; its counts
      add up to the number of starters. */
  lemma StarterTeamsMeaning(ps: seq<Player>)
    ensures forall k :: GetOr(StarterTeams(ps), k, 0) == CountStarterTeam(ps, k)
    ensures forall k :: k in StarterTeams(ps).vals <==> CountStarterTeam(ps, k) > 0
    ensures Sum(StarterTeams(ps)) == StarterCount(ps)
  {
    forall k ensures GetOr(StarterTeams(ps), k, 0) == CountStarterTeam(ps, k) && (k in StarterTeams(ps).vals <==> CountStarterTeam(ps, k) > 0) {
      StarterTeamsAt(ps, k);
    }
    StarterTeamsSum(ps);
  }

  /** Some starter fills lineup slot `pos`. */
  predicate SlotFilled(ps: seq<Player>, pos: string) {
    exists i :: 0 <= i < |ps| && IsStarter(ps[i]) && ps[i].position == pos
  }

  lemma {:induction false} PositionPointsAt(ps: seq<Player>, pos: string)
    ensures GetOr(PositionPoints(ps), pos, 0.0) == SlotPoints(ps, pos)
    ensures pos in PositionPoints(ps).vals <==> SlotFilled(ps, pos)
  {
    if ps != [] {
      var n := |ps| - 1;
      PositionPointsAt(ps[..n], pos);
      if SlotFilled(ps, pos) {
        var i :| 0 <= i < |ps| && IsStarter(ps[i]) && ps[i].position == pos;
        if i < n {
          assert ps[..n][i] == ps[i];
        }
      }
      if SlotFilled(ps[..n], pos) {
        var i :| 0 <= i < n && IsStarter(ps[..n][i]) && ps[..n][i].position == pos;
        assert ps[i] == ps[..n][i];
      }
    }
  }

  /** `pos_pts` sums the starters' points by lineup slot; a slot is a key
      exactly when a starter fills it. */
  lemma PositionPointsMeaning(ps: seq<Player>)
    ensures forall pos :: GetOr(PositionPoints(ps), pos, 0.0) == SlotPoints(ps, pos)
    ensures forall pos :: pos in PositionPoints(ps).vals <==>
      (exists i :: 0 <= i < |ps| && IsStarter(ps[i]) && ps[i].position == pos)
  {
    forall pos ensures GetOr(PositionPoints(ps), pos, 0.0) == SlotPoints(ps, pos) && (pos in PositionPoints(ps).vals <==> SlotFilled(ps, pos)) {
      PositionPointsAt(ps, pos);
    }
  }

  /** `max_player_score` bounds every starter's points from above and is
      attained by a starter unless no starter beats the `-1e9` sentinel;
      bench players play no part. */
  lemma {:induction false} MaxScoreMeaning(ps: seq<Player>)
    ensures forall i :: 0 <= i < |ps| && IsStarter(ps[i]) ==> ps[i].points <= MaxStarterScore(ps)
    ensures MaxStarterScore(ps) >= InitialMax
    ensures MaxStarterScore(ps) == InitialMax ||
      exists i :: 0 <= i < |ps| && IsStarter(ps[i]) && ps[i].points == MaxStarterScore(ps)
  {
    if ps != [] {
      var n := |ps| - 1;
      MaxScoreMeaning(ps[..n]);
      forall i | 0 <= i < n ensures ps[i] == ps[..n][i] {
      }
      var prev := MaxStarterScore(ps[..n]);
      if prev != InitialMax {
        var j :| 0 <= j < n && IsStarter(ps[..n][j]) && ps[..n][j].points == prev;
        assert ps[j] == ps[..n][j];
      }
    }
  }

  /** `min_player_score`: the mirror image, with the `1e9` sentinel. */
  lemma {:induction false} MinScoreMeaning(ps: seq<Player>)
    ensures forall i :: 0 <= i < |ps| && IsStarter(ps[i]) ==> MinStarterScore(ps) <= ps[i].points
    ensures MinStarterScore(ps) <= InitialMin
    ensures MinStarterScore(ps) == InitialMin ||
      exists i :: 0 <= i < |ps| && IsStarter(ps[i]) && ps[i].points == MinStarterScore(ps)
  {
    if ps != [] {
      var n := |ps| - 1;
      MinScoreMeaning(ps[..n]);
      forall i | 0 <= i < n ensures ps[i] == ps[..n][i] {
      }
      var prev := MinStarterScore(ps[..n]);
      if prev != InitialMin {
        var j :| 0 <= j < n && IsStarter(ps[..n][j]) && ps[..n][j].points == prev;
        assert ps[j] == ps[..n][j];
      }
    }
  }

  /** A roster with no starters (all on the bench, or empty) keeps the
      sentinels and zero counters and fills no starter column. */
  lemma {:induction false} NoStarters(ps: seq<Player>, week: int)
    requires forall i :: 0 <= i < |ps| ==> !IsStarter(ps[i])
    ensures Summarize(ps, week).maxScore == InitialMax
    ensures Summarize(ps, week).minScore == InitialMin
    ensures Summarize(ps, week).zeroPt == 0 && Summarize(ps, week).negPt == 0
    ensures Summarize(ps, week).byeStarters == 0
    ensures StarterTeams(ps).keys == [] && PositionPoints(ps).keys == []
  {
    if ps != [] {
      var n := |ps| - 1;
      forall i | 0 <= i < n ensures !IsStarter(ps[..n][i]) {
        assert ps[..n][i] == ps[i];
      }
      NoStarters(ps[..n], week);
      assert !IsStarter(ps[n]);
    }
  }

  /** The counters count starters only: a starter scoring exactly 0 and one
      scoring below 0 are never the same player, and bye starters are
      starters. */
  lemma StarterCounters(ps: seq<Player>, week: int)
    ensures Summarize(ps, week).zeroPt + Summarize(ps, week).negPt <= StarterCount(ps)
    ensures Summarize(ps, week).byeStarters <= StarterCount(ps)
  {
    CountIfDisjoint(ps, ScoredZero, ScoredNegative, IsStarter);
    CountIfMonotone(ps, (p: Player) => IsStarter(p) && p.byeWeek == week, IsStarter);
  }
}
