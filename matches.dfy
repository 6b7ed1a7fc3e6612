/**
 * The match commands: create, update, record the result, add a card, delete.
 * Those that return the match re-read it through `MatchRead.GetMatchById`.
 */
module Matches {
  import opened Wrappers
  import opened Text
  import opened Entities
  import opened Results
  import opened Persistence
  import opened MatchRead

  const MatchNotFound: string := "Match not found."
  const TeamsMustDiffer: string := "Home and away team must be different."
  const HomeTeamNotFound: string := "Home team not found."
  const AwayTeamNotFound: string := "Away team not found."
  const RefereeNotFound: string := "Referee not found."
  const ResultNotAllowed: string := "Match cannot be updated with result in current status."
  const NegativeScore: string := "Scores cannot be negative."
  const CardMatchNotFound: string := "Partido no encontrado."
  const CardPlayerNotFound: string := "Jugador no encontrado."
  const PlayerNotInMatch: string := "El jugador no pertenece a ninguno de los equipos del partido."
  const InvalidCardType: string := "Tipo de tarjeta inválido (0=Amarilla, 1=Roja)."
  const InvalidMinute: string := "El minuto debe estar entre 0 y 999."

  /** The states from which a result may be recorded: Scheduled and InProgress. */
  predicate AcceptsResult(m: Match) {
    m.status == Scheduled || m.status == InProgress
  }

  /** The match as `SetMatchResultCommandHandler` leaves it: scores set, status Completed. */
  function WithResult(m: Match, homeScore: int, awayScore: int, now: DateTime): (r: Match)
    ensures r.status == Completed && r.homeScore == Some(homeScore) && r.awayScore == Some(awayScore)
    ensures r == m.(homeScore := r.homeScore, awayScore := r.awayScore, status := r.status, updatedAtUtc := r.updatedAtUtc)
  {
    m.(homeScore := Some(homeScore), awayScore := Some(awayScore), status := Completed, updatedAtUtc := Some(now))
  }

  /** A recorded result closes the match: it no longer accepts a result, so a second attempt is refused. */
  lemma ResultRecordedOnce(m: Match, homeScore: int, awayScore: int, now: DateTime)
    ensures !AcceptsResult(WithResult(m, homeScore, awayScore, now))
  {
  }

  /** The match row `CreateMatchCommandHandler` builds: scheduled, without referee or scores. */
  function NewMatch(id: Guid, homeTeamId: Guid, awayTeamId: Guid, scheduledAtUtc: DateTime, venue: Option<string>,
                    now: DateTime): Match
  {
    Match(id, homeTeamId, awayTeamId, None, scheduledAtUtc, TrimOpt(venue), Scheduled, None, None, now, None)
  }

  /**
   * `CreateMatchCommandHandler.Handle`: equal teams are refused before any lookup,
   * then a missing home and a missing away team; otherwise one scheduled match is
   * added and returned as the read side shows it.
   */
  method CreateMatch(db: AppDbContext, homeTeamId: Guid, awayTeamId: Guid, scheduledAtUtc: DateTime,
                     venue: Option<string>, now: DateTime)
    returns (r: Result<MatchDto>)
    requires db.Valid()
    modifies db
    ensures db.Valid()
    ensures homeTeamId == awayTeamId ==>
              r == Failure(TeamsMustDiffer, Some(Validation)) && db.State() == old(db.State())
    ensures homeTeamId != awayTeamId && homeTeamId !in old(db.teams) ==>
              r == Failure(HomeTeamNotFound, Some(NotFound)) && db.State() == old(db.State())
    ensures homeTeamId != awayTeamId && homeTeamId in old(db.teams) && awayTeamId !in old(db.teams) ==>
              r == Failure(AwayTeamNotFound, Some(NotFound)) && db.State() == old(db.State())
    ensures homeTeamId != awayTeamId && homeTeamId in old(db.teams) && awayTeamId in old(db.teams) ==>
              var m := NewMatch(old(db.nextId), homeTeamId, awayTeamId, scheduledAtUtc, venue, now);
              && m.id !in old(db.matches)
              && db.State() == old(db.State()).(matches := old(db.matches)[m.id := m], nextId := m.id + 1)
              && GetMatchById(db.State(), m.id).Some?
              && r == Success(GetMatchById(db.State(), m.id).value)
    ensures r.isSuccess ==> r.data.Some? && r.data.value.homeTeamId != r.data.value.awayTeamId
  {
    if homeTeamId == awayTeamId {
      return Failure(TeamsMustDiffer, Some(Validation));
    }
    if homeTeamId !in db.teams {
      return Failure(HomeTeamNotFound, Some(NotFound));
    }
    if awayTeamId !in db.teams {
      return Failure(AwayTeamNotFound, Some(NotFound));
    }
    ghost var before := db.State();
    var id := db.NewGuid();
    var m := NewMatch(id, homeTeamId, awayTeamId, scheduledAtUtc, venue, now);
    PutMatchConsistent(db.State(), m);
    db.matches := db.matches[id := m];
    assert db.State() == before.(matches := before.matches[id := m], nextId := id + 1);
    ConsistentMatchFound(db.State(), id);
    r := Success(GetMatchById(db.State(), id).value);
  }

  /**
   * `UpdateMatchCommandHandler.Handle`: a missing match first, then equal teams,
   * a missing home or away team, and a given but unknown referee are refused;
   * otherwise teams, referee, schedule, trimmed venue and status (any integer) are
   * overwritten, and id, scores and creation time are kept.
   */
  method UpdateMatch(db: AppDbContext, id: Guid, homeTeamId: Guid, awayTeamId: Guid, refereeId: Option<Guid>,
                     scheduledAtUtc: DateTime, venue: Option<string>, status: int, now: DateTime)
    returns (r: Result<MatchDto>)
    requires db.Valid()
    modifies db
    ensures db.Valid()
    ensures id !in old(db.matches) ==> r == Failure(MatchNotFound, Some(NotFound)) && db.State() == old(db.State())
    ensures id in old(db.matches) && homeTeamId == awayTeamId ==>
              r == Failure(TeamsMustDiffer, Some(Validation)) && db.State() == old(db.State())
    ensures id in old(db.matches) && homeTeamId != awayTeamId && homeTeamId !in old(db.teams) ==>
              r == Failure(HomeTeamNotFound, Some(NotFound)) && db.State() == old(db.State())
    ensures id in old(db.matches) && homeTeamId != awayTeamId && homeTeamId in old(db.teams)
            && awayTeamId !in old(db.teams) ==>
              r == Failure(AwayTeamNotFound, Some(NotFound)) && db.State() == old(db.State())
    ensures id in old(db.matches) && homeTeamId != awayTeamId && homeTeamId in old(db.teams)
            && awayTeamId in old(db.teams) && refereeId.Some? && refereeId.value !in old(db.referees) ==>
              r == Failure(RefereeNotFound, Some(NotFound)) && db.State() == old(db.State())
    ensures id in old(db.matches) && homeTeamId != awayTeamId && homeTeamId in old(db.teams)
            && awayTeamId in old(db.teams) && (refereeId.Some? ==> refereeId.value in old(db.referees)) ==>
              var m := old(db.matches)[id].(homeTeamId := homeTeamId, awayTeamId := awayTeamId, refereeId := refereeId,
                                             scheduledAtUtc := scheduledAtUtc, venue := TrimOpt(venue),
                                             status := status, updatedAtUtc := Some(now));
              && m.id == id && m.createdAtUtc == old(db.matches)[id].createdAtUtc
              && db.State() == old(db.State()).(matches := old(db.matches)[id := m])
              && GetMatchById(db.State(), id).Some?
              && r == Success(GetMatchById(db.State(), id).value)
  {
    if id !in db.matches {
      return Failure(MatchNotFound, Some(NotFound));
    }
    if homeTeamId == awayTeamId {
      return Failure(TeamsMustDiffer, Some(Validation));
    }
    if homeTeamId !in db.teams {
      return Failure(HomeTeamNotFound, Some(NotFound));
    }
    if awayTeamId !in db.teams {
      return Failure(AwayTeamNotFound, Some(NotFound));
    }
    if refereeId.Some? && refereeId.value !in db.referees {
      return Failure(RefereeNotFound, Some(NotFound));
    }
    var m := db.matches[id].(homeTeamId := homeTeamId, awayTeamId := awayTeamId, refereeId := refereeId,
                             scheduledAtUtc := scheduledAtUtc, venue := TrimOpt(venue),
                             status := status, updatedAtUtc := Some(now));
    PutMatchConsistent(db.State(), m);
    db.matches := db.matches[id := m];
    ConsistentMatchFound(db.State(), id);
    r := Success(GetMatchById(db.State(), id).value);
  }

  /**
   * `SetMatchResultCommandHandler.Handle`: a missing match, then a match that is
   * neither scheduled nor in progress, then a negative score are refused; otherwise
   * the scores are recorded and the match is completed.
   */
  method SetMatchResult(db: AppDbContext, id: Guid, homeScore: int, awayScore: int, now: DateTime)
    returns (r: Result<MatchDto>)
    requires db.Valid()
    modifies db
    ensures db.Valid()
    ensures id !in old(db.matches) ==> r == Failure(MatchNotFound, Some(NotFound)) && db.State() == old(db.State())
    ensures id in old(db.matches) && !AcceptsResult(old(db.matches)[id]) ==>
              r == Failure(ResultNotAllowed, Some(Validation)) && db.State() == old(db.State())
    ensures id in old(db.matches) && AcceptsResult(old(db.matches)[id]) && (homeScore < 0 || awayScore < 0) ==>
              r == Failure(NegativeScore, Some(Validation)) && db.State() == old(db.State())
    ensures id in old(db.matches) && AcceptsResult(old(db.matches)[id]) && homeScore >= 0 && awayScore >= 0 ==>
              && db.State() == old(db.State()).(matches := old(db.matches)[id := WithResult(old(db.matches)[id], homeScore, awayScore, now)])
              && GetMatchById(db.State(), id).Some?
              && r == Success(GetMatchById(db.State(), id).value)
              && r.data.value.status == Completed
              && r.data.value.homeScore == Some(homeScore) && r.data.value.awayScore == Some(awayScore)
  {
    if id !in db.matches {
      return Failure(MatchNotFound, Some(NotFound));
    }
    if !(db.matches[id].status == Scheduled || db.matches[id].status == InProgress) {
      return Failure(ResultNotAllowed, Some(Validation));
    }
    if homeScore < 0 || awayScore < 0 {
      return Failure(NegativeScore, Some(Validation));
    }
    var m := WithResult(db.matches[id], homeScore, awayScore, now);
    PutMatchConsistent(db.State(), m);
    db.matches := db.matches[id := m];
    ConsistentMatchFound(db.State(), id);
    r := Success(GetMatchById(db.State(), id).value);
  }

  /**
   * `AddMatchCardCommandHandler.Handle`: a missing match, a missing player, a player
   * of neither side, a card type other than yellow or red, and a minute outside
   * 0..999 are refused in that order; otherwise one card is appended.
   */
  method AddMatchCard(db: AppDbContext, matchId: Guid, playerId: Guid, cardType: int, minute: int, now: DateTime)
    returns (r: Result<MatchCardDto>)
    requires db.Valid()
    modifies db
    ensures db.Valid()
    ensures matchId !in old(db.matches) ==>
              r == Failure(CardMatchNotFound, Some(NotFound)) && db.State() == old(db.State())
    ensures matchId in old(db.matches) && playerId !in old(db.players) ==>
              r == Failure(CardPlayerNotFound, Some(NotFound)) && db.State() == old(db.State())
    ensures matchId in old(db.matches) && playerId in old(db.players)
            && old(db.players)[playerId].teamId != old(db.matches)[matchId].homeTeamId
            && old(db.players)[playerId].teamId != old(db.matches)[matchId].awayTeamId ==>
              r == Failure(PlayerNotInMatch, Some(Validation)) && db.State() == old(db.State())
    ensures matchId in old(db.matches) && playerId in old(db.players)
            && (old(db.players)[playerId].teamId == old(db.matches)[matchId].homeTeamId
                || old(db.players)[playerId].teamId == old(db.matches)[matchId].awayTeamId) ==>
              && (cardType != Yellow && cardType != Red ==>
                    r == Failure(InvalidCardType, Some(Validation)) && db.State() == old(db.State()))
              && ((cardType == Yellow || cardType == Red) && (minute < 0 || minute > 999) ==>
                    r == Failure(InvalidMinute, Some(Validation)) && db.State() == old(db.State()))
              && ((cardType == Yellow || cardType == Red) && 0 <= minute <= 999 ==>
                    var card := MatchCard(old(db.nextId), matchId, playerId, cardType, minute, now);
                    && db.State() == old(db.State()).(cards := old(db.cards) + [card], nextId := card.id + 1)
                    && r == Success(CardDto(card, db.players))
                    && r.data.value.playerName == FullName(db.players[playerId].firstName, db.players[playerId].lastName))
  {
    if matchId !in db.matches {
      return Failure(CardMatchNotFound, Some(NotFound));
    }
    if playerId !in db.players {
      return Failure(CardPlayerNotFound, Some(NotFound));
    }
    var m := db.matches[matchId];
    var player := db.players[playerId];
    if player.teamId != m.homeTeamId && player.teamId != m.awayTeamId {
      return Failure(PlayerNotInMatch, Some(Validation));
    }
    if cardType != Yellow && cardType != Red {
      return Failure(InvalidCardType, Some(Validation));
    }
    if minute < 0 || minute > 999 {
      return Failure(InvalidMinute, Some(Validation));
    }
    ghost var before := db.State();
    var id := db.NewGuid();
    var card := MatchCard(id, matchId, playerId, cardType, minute, now);
    AddCardConsistent(db.State(), card);
    db.cards := db.cards + [card];
    assert db.State() == before.(cards := before.cards + [card], nextId := id + 1);
    r := Success(MatchCardDto(card.id, card.playerId, FullName(player.firstName, player.lastName), cardType, card.minute));
  }

  /**
   * `DeleteMatchCommandHandler.Handle`: removes the match; `ON DELETE CASCADE`
   * removes its cards and goals with it, and nothing else changes.
   */
  method DeleteMatch(db: AppDbContext, id: Guid) returns (r: Result<bool>)
    requires db.Valid()
    modifies db
    ensures db.Valid()
    ensures id !in old(db.matches) ==> r == Failure(MatchNotFound, Some(NotFound)) && db.State() == old(db.State())
    ensures id in old(db.matches) ==>
              && r == Success(true)
              && db.State() == old(db.State()).(matches := old(db.matches) - {id},
                                                 cards := CardsNotOf(old(db.cards), id),
                                                 goals := GoalsNotOf(old(db.goals), id))
              && (forall i :: 0 <= i < |db.cards| ==> db.cards[i].matchId != id)
              && (forall i :: 0 <= i < |db.goals| ==> db.goals[i].matchId != id)
  {
    if id !in db.matches {
      return Failure(MatchNotFound, Some(NotFound));
    }
    DeleteMatchConsistent(db.State(), id);
    db.matches, db.cards, db.goals := db.matches - {id}, CardsNotOf(db.cards, id), GoalsNotOf(db.goals, id);
    r := Success(true);
  }
}
