/**
 * `AppDbContext`: the tables the command handlers change, keyed by primary key,
 * with the constraints the schema enforces (foreign keys, the unique user name).
 */
module Persistence {
  import opened Wrappers
  import opened Entities
  import opened Results

  /**
   * A handler's end: the `Result` it returns, or the `DbUpdateException` that
   * `SaveChangesAsync` throws when a `Restrict` foreign key refuses a delete.
   */
  datatype Reply<T> = Returned(result: Result<T>) | SaveFailed

  /** The content of every table at one moment; `nextId` is the next identifier `NewGuid` hands out. */
  datatype Tables = Tables(teams: map<Guid, Team>, players: map<Guid, Player>, matches: map<Guid, Match>,
                           referees: map<Guid, Referee>, cards: seq<MatchCard>, goals: seq<MatchGoal>,
                           users: map<Guid, User>, nextId: Guid)

  /** The primary key of `MatchCards`: no two rows share an id. */
  predicate CardIdsDistinct(cards: seq<MatchCard>) {
    forall i, j :: 0 <= i < j < |cards| ==> cards[i].id != cards[j].id
  }

  /** The primary key of `MatchGoals`: no two rows share an id. */
  predicate GoalIdsDistinct(goals: seq<MatchGoal>) {
    forall i, j :: 0 <= i < j < |goals| ==> goals[i].id != goals[j].id
  }

  /** Every row is stored under its own id, and every id was handed out before. */
  predicate KeysConsistent(t: Tables) {
    && (forall k :: k in t.teams ==> t.teams[k].id == k && k < t.nextId)
    && (forall k :: k in t.players ==> t.players[k].id == k && k < t.nextId)
    && (forall k :: k in t.matches ==> t.matches[k].id == k && k < t.nextId)
    && (forall k :: k in t.referees ==> t.referees[k].id == k && k < t.nextId)
    && (forall i :: 0 <= i < |t.cards| ==> t.cards[i].id < t.nextId)
    && CardIdsDistinct(t.cards)
    && (forall i :: 0 <= i < |t.goals| ==> t.goals[i].id < t.nextId)
    && GoalIdsDistinct(t.goals)
    && (forall k :: k in t.users ==> t.users[k].id == k && k < t.nextId)
  }

  /** The foreign keys of the schema: every reference names an existing row. */
  predicate ReferencesResolve(t: Tables) {
    && (forall k :: k in t.players ==> t.players[k].teamId in t.teams)
    && (forall k :: k in t.matches ==> t.matches[k].homeTeamId in t.teams && t.matches[k].awayTeamId in t.teams)
    && (forall k :: k in t.matches && t.matches[k].refereeId.Some? ==> t.matches[k].refereeId.value in t.referees)
    && (forall i :: 0 <= i < |t.cards| ==> t.cards[i].matchId in t.matches && t.cards[i].playerId in t.players)
    && (forall i :: 0 <= i < |t.goals| ==> t.goals[i].matchId in t.matches && t.goals[i].scorerId in t.players)
  }

  /** The unique index on `Users.UserName`. */
  predicate UserNamesUnique(users: map<Guid, User>) {
    forall a, b :: a in users && b in users && users[a].userName == users[b].userName ==> a == b
  }

  predicate Consistent(t: Tables) {
    KeysConsistent(t) && ReferencesResolve(t) && UserNamesUnique(t.users)
  }

  /** Some team is named exactly `name` (`Teams.AnyAsync(t => t.Name == name)`). */
  predicate TeamNameTaken(teams: map<Guid, Team>, name: string) {
    exists k :: k in teams && teams[k].name == name
  }

  /** Team names are pairwise distinct. */
  predicate TeamNamesDistinct(teams: map<Guid, Team>) {
    forall a, b :: a in teams && b in teams && teams[a].name == teams[b].name ==> a == b
  }

  /** The team is referenced by a player or by a match (the `Restrict` foreign keys). */
  predicate TeamReferenced(t: Tables, id: Guid) {
    || (exists k :: k in t.players && t.players[k].teamId == id)
    || (exists k :: k in t.matches && (t.matches[k].homeTeamId == id || t.matches[k].awayTeamId == id))
  }

  /** The player is referenced by a card or by a goal (the `Restrict` foreign keys). */
  predicate PlayerReferenced(t: Tables, id: Guid) {
    || (exists i :: 0 <= i < |t.cards| && t.cards[i].playerId == id)
    || (exists i :: 0 <= i < |t.goals| && t.goals[i].scorerId == id)
  }

  /** `ON DELETE CASCADE` on `MatchCards.MatchId`: the cards of the other matches, in table order. */
  function CardsNotOf(cards: seq<MatchCard>, matchId: Guid): (r: seq<MatchCard>)
    ensures forall x :: x in r <==> x in cards && x.matchId != matchId
  {
    if cards == [] then []
    else
      assert cards == [cards[0]] + cards[1..];
      if cards[0].matchId == matchId then CardsNotOf(cards[1..], matchId)
      else [cards[0]] + CardsNotOf(cards[1..], matchId)
  }

  /** `ON DELETE CASCADE` on `MatchGoals.MatchId`: the goals of the other matches, in table order. */
  function GoalsNotOf(goals: seq<MatchGoal>, matchId: Guid): (r: seq<MatchGoal>)
    ensures forall x :: x in r <==> x in goals && x.matchId != matchId
  {
    if goals == [] then []
    else
      assert goals == [goals[0]] + goals[1..];
      if goals[0].matchId == matchId then GoalsNotOf(goals[1..], matchId)
      else [goals[0]] + GoalsNotOf(goals[1..], matchId)
  }

  /** `ON DELETE SET NULL` on `Matches.RefereeId`. */
  function ClearReferee(matches: map<Guid, Match>, refereeId: Guid): (r: map<Guid, Match>)
    ensures r.Keys == matches.Keys
    ensures forall k :: k in r ==> r[k].refereeId == (if matches[k].refereeId == Some(refereeId) then None else matches[k].refereeId)
    ensures forall k :: k in r ==> r[k] == matches[k].(refereeId := r[k].refereeId)
  {
    map k | k in matches :: if matches[k].refereeId == Some(refereeId) then matches[k].(refereeId := None) else matches[k]
  }

  /** Adding a team under a fresh, already handed-out id keeps every constraint. */
  lemma AddTeamConsistent(t: Tables, team: Team)
    requires Consistent(t) && team.id < t.nextId && team.id !in t.teams
    ensures Consistent(t.(teams := t.teams[team.id := team]))
  {
  }

  /** Adding a player of an existing team under a fresh, already handed-out id keeps every constraint. */
  lemma AddPlayerConsistent(t: Tables, player: Player)
    requires Consistent(t) && player.id < t.nextId && player.id !in t.players && player.teamId in t.teams
    ensures Consistent(t.(players := t.players[player.id := player]))
  {
  }

  /** Overwriting a player with one whose team exists keeps every constraint. */
  lemma ReplacePlayerConsistent(t: Tables, player: Player)
    requires Consistent(t) && player.id in t.players && player.teamId in t.teams
    ensures Consistent(t.(players := t.players[player.id := player]))
  {
  }

  /** Adding or overwriting a match whose teams and referee exist keeps every constraint. */
  lemma PutMatchConsistent(t: Tables, m: Match)
    requires Consistent(t) && m.id < t.nextId && m.homeTeamId in t.teams && m.awayTeamId in t.teams
    requires m.refereeId.Some? ==> m.refereeId.value in t.referees
    ensures Consistent(t.(matches := t.matches[m.id := m]))
  {
  }

  /** Appending a card of an existing match and player under a fresh id keeps every constraint. */
  lemma AddCardConsistent(t: Tables, c: MatchCard)
    requires Consistent(t) && c.id < t.nextId && c.matchId in t.matches && c.playerId in t.players
    requires forall i :: 0 <= i < |t.cards| ==> t.cards[i].id != c.id
    ensures Consistent(t.(cards := t.cards + [c]))
  {
  }

  /** Dropping the first row keeps ids distinct, and no remaining row shares the first row's id. */
  lemma CardIdsDistinctTail(cards: seq<MatchCard>)
    requires CardIdsDistinct(cards) && cards != []
    ensures CardIdsDistinct(cards[1..])
    ensures forall x :: x in cards[1..] ==> x.id != cards[0].id
  {
    var tail := cards[1..];
    forall i, j | 0 <= i < j < |tail| ensures tail[i].id != tail[j].id {
      assert tail[i] == cards[i + 1] && tail[j] == cards[j + 1];
    }
    forall x | x in tail ensures x.id != cards[0].id {
      var j :| 0 <= j < |tail| && tail[j] == x;
      assert cards[j + 1] == x;
    }
  }

  /** Putting a row in front of rows whose ids differ from its own keeps ids distinct. */
  lemma CardIdsDistinctCons(c: MatchCard, cards: seq<MatchCard>)
    requires CardIdsDistinct(cards) && forall x :: x in cards ==> x.id != c.id
    ensures CardIdsDistinct([c] + cards)
  {
    var r := [c] + cards;
    forall i, j | 0 <= i < j < |r| ensures r[i].id != r[j].id {
      assert r[j] == cards[j - 1];
      if i > 0 {
        assert r[i] == cards[i - 1];
      }
    }
  }

  /** The cascade filter keeps the primary key of the rows it keeps. */
  lemma {:induction false} CardsNotOfKeepsDistinctIds(cards: seq<MatchCard>, matchId: Guid)
    requires CardIdsDistinct(cards)
    ensures CardIdsDistinct(CardsNotOf(cards, matchId))
  {
    if cards != [] {
      CardIdsDistinctTail(cards);
      CardsNotOfKeepsDistinctIds(cards[1..], matchId);
      if cards[0].matchId != matchId {
        CardIdsDistinctCons(cards[0], CardsNotOf(cards[1..], matchId));
      }
    }
  }

  /** Dropping the first row keeps ids distinct, and no remaining row shares the first row's id. */
  lemma GoalIdsDistinctTail(goals: seq<MatchGoal>)
    requires GoalIdsDistinct(goals) && goals != []
    ensures GoalIdsDistinct(goals[1..])
    ensures forall x :: x in goals[1..] ==> x.id != goals[0].id
  {
    var tail := goals[1..];
    forall i, j | 0 <= i < j < |tail| ensures tail[i].id != tail[j].id {
      assert tail[i] == goals[i + 1] && tail[j] == goals[j + 1];
    }
    forall x | x in tail ensures x.id != goals[0].id {
      var j :| 0 <= j < |tail| && tail[j] == x;
      assert goals[j + 1] == x;
    }
  }

  /** Putting a row in front of rows whose ids differ from its own keeps ids distinct. */
  lemma GoalIdsDistinctCons(c: MatchGoal, goals: seq<MatchGoal>)
    requires GoalIdsDistinct(goals) && forall x :: x in goals ==> x.id != c.id
    ensures GoalIdsDistinct([c] + goals)
  {
    var r := [c] + goals;
    forall i, j | 0 <= i < j < |r| ensures r[i].id != r[j].id {
      assert r[j] == goals[j - 1];
      if i > 0 {
        assert r[i] == goals[i - 1];
      }
    }
  }

  /** The cascade filter keeps the primary key of the rows it keeps. */
  lemma {:induction false} GoalsNotOfKeepsDistinctIds(goals: seq<MatchGoal>, matchId: Guid)
    requires GoalIdsDistinct(goals)
    ensures GoalIdsDistinct(GoalsNotOf(goals, matchId))
  {
    if goals != [] {
      GoalIdsDistinctTail(goals);
      GoalsNotOfKeepsDistinctIds(goals[1..], matchId);
      if goals[0].matchId != matchId {
        GoalIdsDistinctCons(goals[0], GoalsNotOf(goals[1..], matchId));
      }
    }
  }

  /** Deleting a match together with its cards and goals keeps every constraint. */
  lemma DeleteMatchConsistent(t: Tables, id: Guid)
    requires Consistent(t)
    ensures Consistent(t.(matches := t.matches - {id}, cards := CardsNotOf(t.cards, id), goals := GoalsNotOf(t.goals, id)))
  {
    CardsNotOfKeepsDistinctIds(t.cards, id);
    GoalsNotOfKeepsDistinctIds(t.goals, id);
    var t' := t.(matches := t.matches - {id}, cards := CardsNotOf(t.cards, id), goals := GoalsNotOf(t.goals, id));
    forall i | 0 <= i < |t'.cards| ensures t'.cards[i].matchId in t'.matches && t'.cards[i].playerId in t'.players {
      assert t'.cards[i] in t.cards;
    }
    forall i | 0 <= i < |t'.goals| ensures t'.goals[i].matchId in t'.matches && t'.goals[i].scorerId in t'.players {
      assert t'.goals[i] in t.goals;
    }
  }

  /** Adding a referee under a fresh, already handed-out id keeps every constraint. */
  lemma AddRefereeConsistent(t: Tables, referee: Referee)
    requires Consistent(t) && referee.id < t.nextId && referee.id !in t.referees
    ensures Consistent(t.(referees := t.referees[referee.id := referee]))
  {
  }

  /**
   * Deleting a referee while `ON DELETE SET NULL` clears it from its matches keeps
   * every constraint: no match is left pointing at the removed row.
   */
  lemma DeleteRefereeConsistent(t: Tables, id: Guid)
    requires Consistent(t)
    ensures Consistent(t.(referees := t.referees - {id}, matches := ClearReferee(t.matches, id)))
    ensures forall k :: k in ClearReferee(t.matches, id) ==> ClearReferee(t.matches, id)[k].refereeId != Some(id)
  {
  }

  /** A new name that no team has keeps team names distinct. */
  lemma AddTeamNameDistinct(teams: map<Guid, Team>, team: Team)
    requires TeamNamesDistinct(teams) && !TeamNameTaken(teams, team.name) && team.id !in teams
    ensures TeamNamesDistinct(teams[team.id := team])
  {
  }

  /** The tracked database context. */
  class AppDbContext {
    var teams: map<Guid, Team>
    var players: map<Guid, Player>
    var matches: map<Guid, Match>
    var referees: map<Guid, Referee>
    var cards: seq<MatchCard>
    var goals: seq<MatchGoal>
    var users: map<Guid, User>
    var nextId: Guid

    function State(): Tables
      reads this
    {
      Tables(teams, players, matches, referees, cards, goals, users, nextId)
    }

    ghost predicate Valid()
      reads this
    {
      Consistent(State())
    }

    constructor()
      ensures Valid()
      ensures State() == Tables(map[], map[], map[], map[], [], [], map[], 0)
    {
      teams, players, matches, referees := map[], map[], map[], map[];
      cards, goals, users := [], [], map[];
      nextId := 0;
    }

    /** `Guid.NewGuid()`: an identifier no row has. */
    method NewGuid() returns (id: Guid)
      requires Valid()
      modifies this
      ensures Valid()
      ensures id == old(nextId) && State() == old(State()).(nextId := id + 1)
      ensures id !in teams && id !in players && id !in matches && id !in referees
      ensures id !in users
      ensures forall i :: 0 <= i < |cards| ==> cards[i].id != id
      ensures forall i :: 0 <= i < |goals| ==> goals[i].id != id
    {
      id := nextId;
      nextId := nextId + 1;
    }
  }
}
