/**
 * `StandingsReadRepository`: the league table and the top-scorer list, both
 * single SQL queries, modelled as functions over the rows of the tables.
 */
module Standings {
  import opened Wrappers
  import opened Entities
  import opened Sorting
  import opened Paging

  /** A row of the `CompletedMatches` CTE: one completed match seen from one of its teams. */
  datatype Side = Side(teamId: Guid, goalsFor: int, goalsAgainst: int)

  /** `StandingRowDto`. The query selects no card columns, so the card counts keep their default 0. */
  datatype StandingRow = StandingRow(rank: int, teamId: Guid, teamName: string, played: int, won: int, drawn: int,
                                     lost: int, goalsFor: int, goalsAgainst: int, goalDifferential: int,
                                     points: int, yellowCards: int, redCards: int)

  datatype TopScorerRow = TopScorerRow(playerId: Guid, playerName: string, teamName: string, goals: int)

  /** `Status = 2 AND HomeScore IS NOT NULL AND AwayScore IS NOT NULL` */
  predicate Counts(m: Match) {
    m.status == Completed && m.homeScore.Some? && m.awayScore.Some?
  }

  /** The `CompletedMatches` CTE: a home row and an away row, goals swapped, for every counted match. */
  function Sides(matches: seq<Match>): (r: seq<Side>)
    ensures forall s :: s in r ==> exists m :: m in matches && Counts(m) && (s.teamId == m.homeTeamId || s.teamId == m.awayTeamId)
  {
    if matches == [] then []
    else
      var m := matches[0];
      var rest := Sides(matches[1..]);
      assert forall x :: x in matches[1..] ==> x in matches;
      if Counts(m) then
        [Side(m.homeTeamId, m.homeScore.value, m.awayScore.value), Side(m.awayTeamId, m.awayScore.value, m.homeScore.value)] + rest
      else rest
  }

  function Win(s: Side): int { if s.goalsFor > s.goalsAgainst then 1 else 0 }
  function Draw(s: Side): int { if s.goalsFor == s.goalsAgainst then 1 else 0 }
  function Loss(s: Side): int { if s.goalsFor < s.goalsAgainst then 1 else 0 }
  function One(s: Side): int { 1 }
  function GoalsFor(s: Side): int { s.goalsFor }
  function GoalsAgainst(s: Side): int { s.goalsAgainst }

  /** `ISNULL(SUM(pick), 0)` over the rows of one team (the LEFT JOIN and GROUP BY). */
  function SumFor(sides: seq<Side>, id: Guid, pick: Side -> int): int {
    if sides == [] then 0 else (if sides[0].teamId == id then pick(sides[0]) else 0) + SumFor(sides[1..], id, pick)
  }

  /** One team's line of the table, before ranking. */
  function Aggregate(team: Team, sides: seq<Side>): (r: StandingRow)
  {
    var won := SumFor(sides, team.id, Win);
    var drawn := SumFor(sides, team.id, Draw);
    var lost := SumFor(sides, team.id, Loss);
    var gf := SumFor(sides, team.id, GoalsFor);
    var ga := SumFor(sides, team.id, GoalsAgainst);
    StandingRow(0, team.id, team.name, won + drawn + lost, won, drawn, lost, gf, ga, gf - ga, won * 3 + drawn, 0, 0)
  }

  lemma {:induction false} OutcomesPartition(sides: seq<Side>, id: Guid)
    ensures SumFor(sides, id, Win) + SumFor(sides, id, Draw) + SumFor(sides, id, Loss) == SumFor(sides, id, One)
    ensures SumFor(sides, id, Win) >= 0 && SumFor(sides, id, Draw) >= 0 && SumFor(sides, id, Loss) >= 0
  {
    if sides != [] {
      OutcomesPartition(sides[1..], id);
    }
  }

  lemma {:induction false} SumForAbsent(sides: seq<Side>, id: Guid, pick: Side -> int)
    requires forall s :: s in sides ==> s.teamId != id
    ensures SumFor(sides, id, pick) == 0
  {
    if sides != [] {
      assert sides[0] in sides;
      assert forall s :: s in sides[1..] ==> s in sides;
      SumForAbsent(sides[1..], id, pick);
    }
  }

  /**
   * One team's line: it played once per counted match it took part in (home or away),
   * won, drew or lost each of them, earns 3 per win and 1 per draw, and its goal
   * difference is goals for minus goals against. A team without counted matches has
   * zeros throughout.
   */
  lemma AggregateMeaning(team: Team, sides: seq<Side>)
    ensures var r := Aggregate(team, sides);
            && r.teamId == team.id && r.teamName == team.name
            && r.played == SumFor(sides, team.id, One) == r.won + r.drawn + r.lost
            && r.won >= 0 && r.drawn >= 0 && r.lost >= 0
            && r.points == 3 * r.won + r.drawn && r.goalDifferential == r.goalsFor - r.goalsAgainst
    ensures (forall s :: s in sides ==> s.teamId != team.id) ==>
              var r := Aggregate(team, sides);
              r.played == 0 && r.points == 0 && r.goalsFor == 0 && r.goalsAgainst == 0
  {
    OutcomesPartition(sides, team.id);
    if forall s :: s in sides ==> s.teamId != team.id {
      SumForAbsent(sides, team.id, Win);
      SumForAbsent(sides, team.id, Draw);
      SumForAbsent(sides, team.id, Loss);
      SumForAbsent(sides, team.id, GoalsFor);
      SumForAbsent(sides, team.id, GoalsAgainst);
    }
  }

  /** `ORDER BY Points DESC, (GoalsFor - GoalsAgainst) DESC, GoalsFor DESC` */
  predicate StandingOrder(a: StandingRow, b: StandingRow) {
    || a.points > b.points
    || (a.points == b.points && a.goalDifferential > b.goalDifferential)
    || (a.points == b.points && a.goalDifferential == b.goalDifferential && a.goalsFor >= b.goalsFor)
  }

  lemma StandingOrderTotal()
    ensures Total(StandingOrder)
  {
  }

  /** The `Agg` CTE: one line per row of `Teams`, in table order. */
  function Aggregated(teams: seq<Team>, sides: seq<Side>): (r: seq<StandingRow>)
    ensures |r| == |teams|
    ensures forall i :: 0 <= i < |teams| ==> r[i] == Aggregate(teams[i], sides)
  {
    if teams == [] then [] else [Aggregate(teams[0], sides)] + Aggregated(teams[1..], sides)
  }

  /** `ROW_NUMBER()` in the final order: rank `start + i` for the row at position `i`. */
  function Ranked(rows: seq<StandingRow>, start: int): (r: seq<StandingRow>)
    ensures |r| == |rows|
    ensures forall i :: 0 <= i < |rows| ==> r[i] == rows[i].(rank := start + i)
  {
    if rows == [] then [] else [rows[0].(rank := start)] + Ranked(rows[1..], start + 1)
  }

  /** `GetStandingsAsync`: every team's line, in table order, ranked from 1. */
  function GetStandings(teams: seq<Team>, matches: seq<Match>): (r: seq<StandingRow>)
    ensures |r| == |teams|
    ensures forall i :: 0 <= i < |r| ==> r[i].rank == i + 1
  {
    Ranked(SortBy(Aggregated(teams, Sides(matches)), StandingOrder), 1)
  }

  /**
   * The table holds every team's line exactly once, without the rank (a permutation
   * of the per-team lines), in the order of points, goal difference and goals for.
   */
  lemma GetStandingsOrdered(teams: seq<Team>, matches: seq<Match>)
    ensures var r := GetStandings(teams, matches);
            var lines := Aggregated(teams, Sides(matches));
            var ordered := SortBy(lines, StandingOrder);
            && multiset(ordered) == multiset(lines)
            && (forall i :: 0 <= i < |r| ==> r[i] == ordered[i].(rank := i + 1))
            && SortedBy(r, StandingOrder)
  {
    var lines := Aggregated(teams, Sides(matches));
    var ordered := SortBy(lines, StandingOrder);
    StandingOrderTotal();
    SortBySorted(lines, StandingOrder);
    var r := GetStandings(teams, matches);
    forall i | 0 < i < |r| ensures StandingOrder(r[i - 1], r[i]) {
      assert StandingOrder(ordered[i - 1], ordered[i]);
    }
  }

  /** Sum of one column over the lines of the listed teams. */
  function SumOverTeams(ids: seq<Guid>, sides: seq<Side>, pick: Side -> int): int {
    if ids == [] then 0 else SumFor(sides, ids[0], pick) + SumOverTeams(ids[1..], sides, pick)
  }

  predicate Distinct(ids: seq<Guid>) {
    forall i, j :: 0 <= i < j < |ids| ==> ids[i] != ids[j]
  }

  lemma SumForSingle(s: Side, id: Guid, pick: Side -> int)
    ensures SumFor([s], id, pick) == if s.teamId == id then pick(s) else 0
  {
    assert [s][1..] == [];
  }

  lemma SumForCons(s: Side, sides: seq<Side>, id: Guid, pick: Side -> int)
    ensures SumFor([s] + sides, id, pick) == SumFor([s], id, pick) + SumFor(sides, id, pick)
  {
    assert ([s] + sides)[1..] == sides;
    SumForSingle(s, id, pick);
  }

  lemma {:induction false} SumOverTeamsNoSides(ids: seq<Guid>, pick: Side -> int)
    ensures SumOverTeams(ids, [], pick) == 0
  {
    if ids != [] {
      SumOverTeamsNoSides(ids[1..], pick);
    }
  }

  lemma {:induction false} SumOverTeamsCons(ids: seq<Guid>, s: Side, sides: seq<Side>, pick: Side -> int)
    ensures SumOverTeams(ids, [s] + sides, pick) == SumOverTeams(ids, [s], pick) + SumOverTeams(ids, sides, pick)
  {
    if ids != [] {
      SumForCons(s, sides, ids[0], pick);
      SumOverTeamsCons(ids[1..], s, sides, pick);
    }
  }

  /** A row is counted for exactly the one team that has its id. */
  lemma {:induction false} SumOverTeamsSingle(ids: seq<Guid>, s: Side, pick: Side -> int)
    requires Distinct(ids) && s.teamId in ids
    ensures SumOverTeams(ids, [s], pick) == pick(s)
  {
    SumForSingle(s, ids[0], pick);
    var tail := ids[1..];
    assert Distinct(tail) by {
      forall i, j | 0 <= i < j < |tail| ensures tail[i] != tail[j] {
        assert tail[i] == ids[i + 1] && tail[j] == ids[j + 1];
      }
    }
    if ids[0] == s.teamId {
      assert s.teamId !in tail by {
        forall k | 0 <= k < |tail| ensures tail[k] != s.teamId {
          assert tail[k] == ids[k + 1];
        }
      }
      SumOverTeamsOthers(tail, s, pick);
    } else {
      SumOverTeamsSingle(tail, s, pick);
    }
  }

  lemma {:induction false} SumOverTeamsOthers(ids: seq<Guid>, s: Side, pick: Side -> int)
    requires s.teamId !in ids
    ensures SumOverTeams(ids, [s], pick) == 0
  {
    if ids != [] {
      SumForSingle(s, ids[0], pick);
      SumOverTeamsOthers(ids[1..], s, pick);
    }
  }

  /**
   * With distinct team ids and every row belonging to a listed team, adding up a
   * column over the teams' lines gives the column's total over all rows.
   */
  lemma {:induction false} SumOverTeamsIsTotal(ids: seq<Guid>, sides: seq<Side>, pick: Side -> int)
    requires Distinct(ids) && forall s :: s in sides ==> s.teamId in ids
    ensures SumOverTeams(ids, sides, pick) == SumOf(sides, pick)
  {
    if sides == [] {
      SumOverTeamsNoSides(ids, pick);
    } else {
      assert sides == [sides[0]] + sides[1..];
      assert sides[0] in sides;
      assert forall s :: s in sides[1..] ==> s in sides;
      SumOverTeamsCons(ids, sides[0], sides[1..], pick);
      SumOverTeamsSingle(ids, sides[0], pick);
      SumOverTeamsIsTotal(ids, sides[1..], pick);
    }
  }

  /** Each counted match gives one win and one loss, or two draws, and its goals once each way. */
  lemma {:induction false} SidesBalance(matches: seq<Match>)
    ensures SumOf(Sides(matches), Win) == SumOf(Sides(matches), Loss)
    ensures SumOf(Sides(matches), GoalsFor) == SumOf(Sides(matches), GoalsAgainst)
  {
    if matches != [] {
      var m := matches[0];
      var rest := Sides(matches[1..]);
      SidesBalance(matches[1..]);
      if Counts(m) {
        var pair := [Side(m.homeTeamId, m.homeScore.value, m.awayScore.value), Side(m.awayTeamId, m.awayScore.value, m.homeScore.value)];
        SumOfAppend(pair, rest, Win);
        SumOfAppend(pair, rest, Loss);
        SumOfAppend(pair, rest, GoalsFor);
        SumOfAppend(pair, rest, GoalsAgainst);
      }
    }
  }

  function TeamIds(teams: seq<Team>): (r: seq<Guid>)
    ensures |r| == |teams| && forall i :: 0 <= i < |teams| ==> r[i] == teams[i].id
  {
    if teams == [] then [] else [teams[0].id] + TeamIds(teams[1..])
  }

  /**
   * Across the whole table, wins equal losses and goals for equal goals against,
   * provided team ids are distinct and every counted match's teams are in the table
   * (the primary key and the foreign keys of `Matches`).
   */
  lemma TableBalances(teams: seq<Team>, matches: seq<Match>)
    requires Distinct(TeamIds(teams))
    requires forall m :: m in matches && Counts(m) ==> m.homeTeamId in TeamIds(teams) && m.awayTeamId in TeamIds(teams)
    ensures SumOverTeams(TeamIds(teams), Sides(matches), Win) == SumOverTeams(TeamIds(teams), Sides(matches), Loss)
    ensures SumOverTeams(TeamIds(teams), Sides(matches), GoalsFor) == SumOverTeams(TeamIds(teams), Sides(matches), GoalsAgainst)
  {
    var ids := TeamIds(teams);
    var sides := Sides(matches);
    SumOverTeamsIsTotal(ids, sides, Win);
    SumOverTeamsIsTotal(ids, sides, Loss);
    SumOverTeamsIsTotal(ids, sides, GoalsFor);
    SumOverTeamsIsTotal(ids, sides, GoalsAgainst);
    SidesBalance(matches);
  }

  /** `TOP (@Take)`: the requested limit, 10 when absent, clamped to [1, 100]. */
  function TakeOf(limit: Option<int>): (r: int)
    ensures 1 <= r <= MaxPageSize
    ensures limit.None? ==> r == 10
    ensures limit.Some? && 1 <= limit.value <= MaxPageSize ==> r == limit.value
  {
    Clamp(limit.GetOr(10), 1, MaxPageSize)
  }

  /** `COUNT(g.Id)` over the LEFT JOIN: the player's goals that are not own goals. */
  function GoalsOf(goals: seq<MatchGoal>, playerId: Guid): (r: int)
    ensures 0 <= r <= |goals|
  {
    if goals == [] then 0
    else (if goals[0].scorerId == playerId && !goals[0].isOwnGoal then 1 else 0) + GoalsOf(goals[1..], playerId)
  }

  /** An own goal never counts for anybody. */
  lemma {:induction false} OwnGoalsIgnored(goals: seq<MatchGoal>, g: MatchGoal, playerId: Guid)
    requires g.isOwnGoal
    ensures GoalsOf(goals + [g], playerId) == GoalsOf(goals, playerId)
  {
    if goals == [] {
      assert goals + [g] == [g];
    } else {
      assert (goals + [g])[1..] == goals[1..] + [g];
      OwnGoalsIgnored(goals[1..], g, playerId);
    }
  }

  /** `INNER JOIN Teams`: the players whose team exists, in table order. */
  function Joined(players: seq<Player>, teams: map<Guid, Team>): (r: seq<Player>)
    ensures |r| <= |players|
    ensures forall p :: p in r <==> p in players && p.teamId in teams
  {
    if players == [] then []
    else
      var rest := Joined(players[1..], teams);
      assert forall q :: q in players <==> q == players[0] || q in players[1..];
      if players[0].teamId in teams then [players[0]] + rest else rest
  }

  /** The join keeps each player as often as the table holds it, and drops the players without a team. */
  lemma {:induction false} JoinedCounts(players: seq<Player>, teams: map<Guid, Team>)
    ensures forall p :: multiset(Joined(players, teams))[p] == if p.teamId in teams then multiset(players)[p] else 0
  {
    if players != [] {
      JoinedCounts(players[1..], teams);
      assert players == [players[0]] + players[1..];
    }
  }

  /** The line of one joined player: id, "First Last", team name and goal count. */
  function LineOf(p: Player, teams: map<Guid, Team>, goals: seq<MatchGoal>): TopScorerRow
    requires p.teamId in teams
  {
    TopScorerRow(p.id, FullName(p.firstName, p.lastName), teams[p.teamId].name, GoalsOf(goals, p.id))
  }

  /** Exactly one line per player whose team exists (the inner join), zero goals included, in table order. */
  function ScorerLines(players: seq<Player>, teams: map<Guid, Team>, goals: seq<MatchGoal>): (r: seq<TopScorerRow>)
    ensures |r| == |Joined(players, teams)|
    ensures forall i :: 0 <= i < |r| ==>
              Joined(players, teams)[i].teamId in teams && r[i] == LineOf(Joined(players, teams)[i], teams, goals)
  {
    if players == [] then []
    else
      var p := players[0];
      var rest := ScorerLines(players[1..], teams, goals);
      if p.teamId in teams then [LineOf(p, teams, goals)] + rest
      else rest
  }

  /** The line counts the goals of a player whose team exists. */
  predicate CountsPlayer(x: TopScorerRow, players: seq<Player>, teams: map<Guid, Team>, goals: seq<MatchGoal>) {
    exists p :: p in players && p.teamId in teams && x.playerId == p.id && x.goals == GoalsOf(goals, p.id)
  }

  /** Every joined player has its line, and every line is a joined player's, with that player's goals. */
  lemma ScorerLinesMembers(players: seq<Player>, teams: map<Guid, Team>, goals: seq<MatchGoal>)
    ensures var r := ScorerLines(players, teams, goals);
            && (forall p :: p in players && p.teamId in teams ==> LineOf(p, teams, goals) in r)
            && (forall x :: x in r ==> CountsPlayer(x, players, teams, goals))
  {
    var r := ScorerLines(players, teams, goals);
    var joined := Joined(players, teams);
    forall p | p in players && p.teamId in teams ensures LineOf(p, teams, goals) in r {
      var i :| 0 <= i < |joined| && joined[i] == p;
      assert r[i] == LineOf(p, teams, goals);
    }
    forall x | x in r ensures CountsPlayer(x, players, teams, goals) {
      var i :| 0 <= i < |r| && r[i] == x;
      assert joined[i] in joined;
    }
  }

  /** `ORDER BY COUNT(g.Id) DESC` */
  predicate MoreGoals(a: TopScorerRow, b: TopScorerRow) {
    a.goals >= b.goals
  }

  /** `GetTopScorersAsync`: the lines with the most goals first, at most `take` of them. */
  function GetTopScorers(players: seq<Player>, teams: map<Guid, Team>, goals: seq<MatchGoal>, limit: Option<int>): (r: seq<TopScorerRow>)
    ensures |r| <= TakeOf(limit)
    ensures |r| == if |ScorerLines(players, teams, goals)| < TakeOf(limit) then |ScorerLines(players, teams, goals)| else TakeOf(limit)
  {
    var ordered := SortBy(ScorerLines(players, teams, goals), MoreGoals);
    if |ordered| <= TakeOf(limit) then ordered else ordered[..TakeOf(limit)]
  }

  /** The list is a prefix of the ordered lines: a corollary of the definition, used by `GetTopScorersMeaning`. */
  lemma TopScorersPrefix(players: seq<Player>, teams: map<Guid, Team>, goals: seq<MatchGoal>, limit: Option<int>)
    ensures var r := GetTopScorers(players, teams, goals, limit);
            var ordered := SortBy(ScorerLines(players, teams, goals), MoreGoals);
            |r| <= |ordered| && r == ordered[..|r|]
  {
  }

  /** The ordered lines are in non-increasing goal order. */
  lemma OrderedLinesByGoals(lines: seq<TopScorerRow>)
    ensures var ordered := SortBy(lines, MoreGoals);
            forall i, j :: 0 <= i <= j < |ordered| ==> ordered[i].goals >= ordered[j].goals
  {
    assert Total(MoreGoals);
    SortBySorted(lines, MoreGoals);
    SortedByChain(SortBy(lines, MoreGoals));
  }

  /** A prefix of an ordering of `lines`: ordered, drawn from `lines`, and nothing left out beats it. */
  lemma PrefixOfOrdered(lines: seq<TopScorerRow>, ordered: seq<TopScorerRow>, r: seq<TopScorerRow>)
    requires multiset(ordered) == multiset(lines) && |r| <= |ordered| && r == ordered[..|r|]
    requires forall i, j :: 0 <= i <= j < |ordered| ==> ordered[i].goals >= ordered[j].goals
    ensures forall i :: 0 < i < |r| ==> r[i - 1].goals >= r[i].goals
    ensures forall x :: x in r ==> x in lines
    ensures forall x, y :: x in r && y in lines && y !in r ==> x.goals >= y.goals
  {
    forall i | 0 < i < |r| ensures r[i - 1].goals >= r[i].goals {
      assert r[i - 1] == ordered[i - 1] && r[i] == ordered[i];
    }
    forall x | x in r ensures x in lines {
      var i :| 0 <= i < |r| && r[i] == x;
      assert ordered[i] in multiset(ordered);
    }
    forall x, y | x in r && y in lines && y !in r ensures x.goals >= y.goals {
      assert y in multiset(ordered);
      var j :| 0 <= j < |ordered| && ordered[j] == y;
      var i :| 0 <= i < |r| && r[i] == x;
      assert ordered[i] == x;
    }
  }

  /**
   * The list is in non-increasing goal order, every line counts that player's
   * goals without own goals, and no player left out has more goals than a listed one.
   */
  lemma GetTopScorersMeaning(players: seq<Player>, teams: map<Guid, Team>, goals: seq<MatchGoal>, limit: Option<int>)
    ensures var r := GetTopScorers(players, teams, goals, limit);
            && (forall i :: 0 < i < |r| ==> r[i - 1].goals >= r[i].goals)
            && (forall x :: x in r ==> CountsPlayer(x, players, teams, goals))
            && (forall x, y :: x in r && y in ScorerLines(players, teams, goals) && y !in r ==> x.goals >= y.goals)
  {
    var lines := ScorerLines(players, teams, goals);
    TopScorersPrefix(players, teams, goals, limit);
    TopOfOrderedMeaning(lines, GetTopScorers(players, teams, goals, limit));
    ScorerLinesMembers(players, teams, goals);
  }

  /** A prefix of the lines ordered by goals is ordered, drawn from the lines, and beats every line left out. */
  lemma TopOfOrderedMeaning(lines: seq<TopScorerRow>, r: seq<TopScorerRow>)
    requires |r| <= |SortBy(lines, MoreGoals)| && r == SortBy(lines, MoreGoals)[..|r|]
    ensures forall i :: 0 < i < |r| ==> r[i - 1].goals >= r[i].goals
    ensures forall x :: x in r ==> x in lines
    ensures forall x, y :: x in r && y in lines && y !in r ==> x.goals >= y.goals
  {
    OrderedLinesByGoals(lines);
    PrefixOfOrdered(lines, SortBy(lines, MoreGoals), r);
  }

  /** In a list ordered by non-increasing goals, any earlier line has at least as many goals as any later one. */
  lemma SortedByChain(rows: seq<TopScorerRow>)
    requires SortedBy(rows, MoreGoals)
    ensures forall i, j :: 0 <= i <= j < |rows| ==> rows[i].goals >= rows[j].goals
  {
    forall i, j | 0 <= i <= j < |rows| ensures rows[i].goals >= rows[j].goals {
      var k := i;
      while k < j
        invariant i <= k <= j && rows[i].goals >= rows[k].goals
      {
        k := k + 1;
      }
    }
  }
}
