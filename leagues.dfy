/** League resolution (`Query.run_query`): the league name is learned from
    the first season that lists exactly one league for the user and is then
    reused to pick the league in every later season. */
module Leagues {
  import opened PySeq
  import opened Records

  /** The id the loop over the season's leagues ends with: each league
      named `name` overwrites it, so the last one wins. */
  function LastLeagueId(leagues: seq<League>, name: string): Option<string> {
    if leagues == [] then None
    else
      var l := leagues[|leagues| - 1];
      if l.name == name then Some(l.leagueId) else LastLeagueId(leagues[..|leagues| - 1], name)
  }

  /** The loop finds nothing exactly when no league carries the name, and
      otherwise the id of the last league that does. */
  lemma {:induction false} LastLeagueIdMeaning(leagues: seq<League>, name: string)
    ensures LastLeagueId(leagues, name).None? <==>
      forall i :: 0 <= i < |leagues| ==> leagues[i].name != name
    ensures LastLeagueId(leagues, name).Some? ==>
      exists i :: 0 <= i < |leagues| && leagues[i].name == name
        && leagues[i].leagueId == LastLeagueId(leagues, name).value
        && forall j :: i < j < |leagues| ==> leagues[j].name != name
  {
    if leagues != [] {
      var n := |leagues| - 1;
      LastLeagueIdMeaning(leagues[..n], name);
      forall i | 0 <= i < n ensures leagues[..n][i] == leagues[i] {
      }
      if leagues[n].name != name && LastLeagueId(leagues[..n], name).Some? {
        var i :| 0 <= i < n && leagues[..n][i].name == name
          && leagues[..n][i].leagueId == LastLeagueId(leagues[..n], name).value
          && forall j :: i < j < n ==> leagues[..n][j].name != name;
        assert forall j :: i < j < |leagues| ==> leagues[j].name != name;
      }
    }
  }

  /** The league name after the call, and the league id or the error raised. */
  datatype Resolution = Resolution(name: Option<string>, id: Result<string, Error>)

  /** `run_query` for `season`, given the league name known so far and the
      leagues listed for the season's game key. */
  function Resolve(name: Option<string>, season: int, leagues: seq<League>): (r: Resolution)
    ensures name.Some? ==> r.name == name
    ensures name.None? && |leagues| > 1 ==> r == Resolution(None, Err(AmbiguousLeague(season)))
    ensures name.None? && |leagues| == 0 ==> r == Resolution(None, Err(NoLeagues(season)))
    ensures name.None? && |leagues| == 1 ==>
      r == Resolution(Some(leagues[0].name), Ok(leagues[0].leagueId))
    ensures r.id.Ok? ==> r.name.Some?
    ensures r.id.Ok? ==>
      exists i :: 0 <= i < |leagues| && leagues[i].name == r.name.value
        && leagues[i].leagueId == r.id.value
        && forall j :: i < j < |leagues| ==> leagues[j].name != r.name.value
    ensures name.Some? ==>
      (r.id == Err(NoLeagueId(season)) <==> forall i :: 0 <= i < |leagues| ==> leagues[i].name != name.value)
  {
    if name.None? && |leagues| > 1 then Resolution(None, Err(AmbiguousLeague(season)))
    else if name.None? && |leagues| == 0 then Resolution(None, Err(NoLeagues(season)))
    else
      var n := if name.Some? then name.value else leagues[0].name;
      LastLeagueIdMeaning(leagues, n);
      match LastLeagueId(leagues, n)
      case None => Resolution(Some(n), Err(NoLeagueId(season)))
      case Some(id) => Resolution(Some(n), Ok(id))
  }

  /** The `for league in leagues` loop of `run_query`. */
  method FindLeagueId(leagues: seq<League>, name: string) returns (leagueId: Option<string>)
    ensures leagueId == LastLeagueId(leagues, name)
  {
    leagueId := None;
    for i := 0 to |leagues|
      invariant leagueId == LastLeagueId(leagues[..i], name)
    {
      assert leagues[..i + 1][..i] == leagues[..i];
      if leagues[i].name == name {
        leagueId := Some(leagues[i].leagueId);
      }
    }
    assert leagues[..|leagues|] == leagues;
  }
}
