/**
 * The persisted entities. A `Guid` is an opaque identifier and a `DateTime`
 * a tick count; both come from the environment (`Guid.NewGuid()`,
 * `DateTime.UtcNow`) and enter the operations as parameters.
 */
module Entities {
  import opened Wrappers

  type Guid = nat
  type DateTime = int

  /** `MatchStatus`, stored as its integer value (an update may store any integer). */
  const Scheduled: int := 0
  const InProgress: int := 1
  const Completed: int := 2
  const Postponed: int := 3
  const Cancelled: int := 4

  /** `CardType`: 0 = yellow, 1 = red. */
  const Yellow: int := 0
  const Red: int := 1

  datatype Team = Team(id: Guid, name: string, logoUrl: Option<string>,
                       createdAtUtc: DateTime, updatedAtUtc: Option<DateTime>)

  datatype Player = Player(id: Guid, teamId: Guid, firstName: string, lastName: string,
                           jerseyNumber: Option<string>, position: Option<string>,
                           createdAtUtc: DateTime, updatedAtUtc: Option<DateTime>)

  datatype Referee = Referee(id: Guid, firstName: string, lastName: string, licenseNumber: Option<string>,
                             createdAtUtc: DateTime, updatedAtUtc: Option<DateTime>)

  /** `Match`, with the optional referee the database schema and the handlers use. */
  datatype Match = Match(id: Guid, homeTeamId: Guid, awayTeamId: Guid, refereeId: Option<Guid>,
                         scheduledAtUtc: DateTime, venue: Option<string>, status: int,
                         homeScore: Option<int>, awayScore: Option<int>,
                         createdAtUtc: DateTime, updatedAtUtc: Option<DateTime>)

  datatype MatchCard = MatchCard(id: Guid, matchId: Guid, playerId: Guid, cardType: int, minute: int,
                                 createdAtUtc: DateTime)

  datatype MatchGoal = MatchGoal(id: Guid, matchId: Guid, scorerId: Guid, minute: int, isOwnGoal: bool,
                                 createdAtUtc: DateTime)

  datatype User = User(id: Guid, userName: string, email: Option<string>, passwordHash: string, salt: string,
                       createdAtUtc: DateTime)

  datatype IdempotencyRecord = IdempotencyRecord(id: Guid, idempotencyKey: string, requestMethod: string,
                                                 requestPath: string, responseStatusCode: int,
                                                 responseBody: Option<string>, responseContentType: Option<string>,
                                                 createdAtUtc: DateTime)

  /** `FirstName + " " + LastName`, the display name the read side and the card DTO build. */
  function FullName(firstName: string, lastName: string): string {
    firstName + " " + lastName
  }
}
