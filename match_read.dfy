/**
 * `MatchReadRepository.GetByIdAsync`: one match joined with its teams, its
 * referee (if any) and its cards ordered by minute and creation time.
 */
module MatchRead {
  import opened Wrappers
  import opened Entities
  import opened Persistence
  import opened Sorting

  datatype MatchCardDto = MatchCardDto(id: Guid, playerId: Guid, playerName: string, cardType: int, minute: int)

  datatype MatchDto = MatchDto(id: Guid, homeTeamId: Guid, awayTeamId: Guid, refereeId: Option<Guid>,
                               refereeName: Option<string>, scheduledAtUtc: DateTime, venue: Option<string>,
                               status: int, homeScore: Option<int>, awayScore: Option<int>,
                               homeTeamName: string, awayTeamName: string,
                               cards: seq<MatchCardDto>, createdAtUtc: DateTime)

  /** `ORDER BY c.Minute, c.CreatedAtUtc` */
  predicate CardOrder(a: MatchCard, b: MatchCard) {
    a.minute < b.minute || (a.minute == b.minute && a.createdAtUtc <= b.createdAtUtc)
  }

  lemma CardOrderTotal()
    ensures Total(CardOrder)
  {
  }

  /** `WHERE c.MatchId = @MatchId` with `INNER JOIN Players`: the match's cards whose player exists, in table order. */
  function CardsOf(cards: seq<MatchCard>, players: map<Guid, Player>, matchId: Guid): (r: seq<MatchCard>)
    ensures forall c :: c in r <==> c in cards && c.matchId == matchId && c.playerId in players
    ensures forall c :: multiset(r)[c] == if c.matchId == matchId && c.playerId in players then multiset(cards)[c] else 0
  {
    if cards == [] then []
    else
      var rest := CardsOf(cards[1..], players, matchId);
      assert cards == [cards[0]] + cards[1..];
      assert forall c :: c in cards <==> c == cards[0] || c in cards[1..];
      if cards[0].matchId == matchId && cards[0].playerId in players then [cards[0]] + rest else rest
  }

  function CardDto(c: MatchCard, players: map<Guid, Player>): MatchCardDto
    requires c.playerId in players
  {
    MatchCardDto(c.id, c.playerId, FullName(players[c.playerId].firstName, players[c.playerId].lastName), c.cardType, c.minute)
  }

  function CardDtos(cards: seq<MatchCard>, players: map<Guid, Player>): (r: seq<MatchCardDto>)
    requires forall c :: c in cards ==> c.playerId in players
    ensures |r| == |cards|
    ensures forall i :: 0 <= i < |cards| ==> r[i] == CardDto(cards[i], players)
  {
    if cards == [] then [] else [CardDto(cards[0], players)] + CardDtos(cards[1..], players)
  }

  /** The match's cards as the query returns them, sorted by (minute, creation time). */
  function SortedCards(t: Tables, matchId: Guid): seq<MatchCard> {
    SortBy(CardsOf(t.cards, t.players, matchId), CardOrder)
  }

  /** `r.FirstName + ' ' + r.LastName` through the LEFT JOIN: null without a referee row. */
  function RefereeName(referees: map<Guid, Referee>, refereeId: Option<Guid>): (r: Option<string>)
    ensures r.Some? <==> refereeId.Some? && refereeId.value in referees
  {
    if refereeId.Some? && refereeId.value in referees then
      Some(FullName(referees[refereeId.value].firstName, referees[refereeId.value].lastName))
    else None
  }

  /**
   * `GetByIdAsync`: null unless the match exists and both its teams do (the two
   * inner joins); otherwise the match row with the team and referee names and its cards.
   */
  function GetMatchById(t: Tables, id: Guid): (r: Option<MatchDto>)
    ensures r.Some? <==> id in t.matches && t.matches[id].homeTeamId in t.teams && t.matches[id].awayTeamId in t.teams
    ensures r.Some? ==> var m := t.matches[id];
              && r.value.id == id && r.value.homeTeamId == m.homeTeamId && r.value.awayTeamId == m.awayTeamId
              && r.value.refereeId == m.refereeId && r.value.refereeName == RefereeName(t.referees, m.refereeId)
              && r.value.status == m.status && r.value.createdAtUtc == m.createdAtUtc
              && r.value.homeScore == m.homeScore && r.value.awayScore == m.awayScore
              && r.value.venue == m.venue && r.value.scheduledAtUtc == m.scheduledAtUtc
              && r.value.homeTeamName == t.teams[m.homeTeamId].name
              && r.value.awayTeamName == t.teams[m.awayTeamId].name
              && |r.value.cards| == |CardsOf(t.cards, t.players, id)|
  {
    if id in t.matches && t.matches[id].homeTeamId in t.teams && t.matches[id].awayTeamId in t.teams then
      var m := t.matches[id];
      var cards := SortedCards(t, id);
      assert forall c :: c in cards ==> c in multiset(cards);
      Some(MatchDto(id, m.homeTeamId, m.awayTeamId, m.refereeId, RefereeName(t.referees, m.refereeId),
                    m.scheduledAtUtc, m.venue, m.status, m.homeScore, m.awayScore,
                    t.teams[m.homeTeamId].name, t.teams[m.awayTeamId].name,
                    CardDtos(cards, t.players), m.createdAtUtc))
    else None
  }

  /**
   * The returned cards are exactly the match's cards whose player exists, each once,
   * as DTOs carrying the player's full name, ordered by minute and then by creation time.
   */
  lemma GetMatchByIdCards(t: Tables, id: Guid)
    requires GetMatchById(t, id).Some?
    ensures var cards := GetMatchById(t, id).value.cards;
            var rows := SortedCards(t, id);
            && multiset(rows) == multiset(CardsOf(t.cards, t.players, id))
            && |cards| == |rows|
            && (forall i :: 0 <= i < |rows| ==>
                  rows[i].matchId == id && rows[i].playerId in t.players && cards[i] == CardDto(rows[i], t.players))
            && SortedBy(rows, CardOrder)
  {
    var rows := SortedCards(t, id);
    CardOrderTotal();
    SortBySorted(CardsOf(t.cards, t.players, id), CardOrder);
    forall i | 0 <= i < |rows| ensures rows[i].matchId == id && rows[i].playerId in t.players {
      assert rows[i] in multiset(CardsOf(t.cards, t.players, id));
    }
  }

  /** In a consistent database every match is found, so the handlers' `dto!` is never null. */
  lemma ConsistentMatchFound(t: Tables, id: Guid)
    requires Consistent(t) && id in t.matches
    ensures GetMatchById(t, id).Some?
  {
  }
}
