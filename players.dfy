/** The player commands: create, update and delete a row of `Players`. */
module Players {
  import opened Wrappers
  import opened Text
  import opened Entities
  import opened Results
  import opened Persistence

  datatype PlayerDto = PlayerDto(id: Guid, teamId: Guid, firstName: string, lastName: string,
                                 jerseyNumber: Option<string>, position: Option<string>, createdAtUtc: DateTime)

  function ToDto(p: Player): PlayerDto {
    PlayerDto(p.id, p.teamId, p.firstName, p.lastName, p.jerseyNumber, p.position, p.createdAtUtc)
  }

  const FirstNameRequired: string := "First name is required."
  const LastNameRequired: string := "Last name is required."
  const TeamNotFound: string := "Team not found."
  const PlayerNotFound: string := "Player not found."

  /**
   * `CreatePlayerCommandHandler.Handle`: blank first name, then blank last name,
   * then a missing team are refused; otherwise one player is added with trimmed fields.
   */
  method CreatePlayer(db: AppDbContext, teamId: Guid, firstName: string, lastName: string,
                      jerseyNumber: Option<string>, position: Option<string>, now: DateTime)
    returns (r: Result<PlayerDto>)
    requires db.Valid()
    modifies db
    ensures db.Valid()
    ensures AllWhiteSpace(firstName) ==>
              r == Failure(FirstNameRequired, Some(Validation)) && db.State() == old(db.State())
    ensures !AllWhiteSpace(firstName) && AllWhiteSpace(lastName) ==>
              r == Failure(LastNameRequired, Some(Validation)) && db.State() == old(db.State())
    ensures !AllWhiteSpace(firstName) && !AllWhiteSpace(lastName) && teamId !in old(db.teams) ==>
              r == Failure(TeamNotFound, Some(NotFound)) && db.State() == old(db.State())
    ensures !AllWhiteSpace(firstName) && !AllWhiteSpace(lastName) && teamId in old(db.teams) ==>
              var player := Player(old(db.nextId), teamId, Trim(firstName), Trim(lastName),
                                   TrimOpt(jerseyNumber), TrimOpt(position), now, None);
              && old(db.nextId) !in old(db.players)
              && db.State() == old(db.State()).(players := old(db.players)[player.id := player], nextId := player.id + 1)
              && r == Success(ToDto(player))
  {
    if IsNullOrWhiteSpace(Some(firstName)) {
      return Failure(FirstNameRequired, Some(Validation));
    }
    if IsNullOrWhiteSpace(Some(lastName)) {
      return Failure(LastNameRequired, Some(Validation));
    }
    if teamId !in db.teams {
      return Failure(TeamNotFound, Some(NotFound));
    }
    ghost var before := db.State();
    var id := db.NewGuid();
    var player := Player(id, teamId, Trim(firstName), Trim(lastName), TrimOpt(jerseyNumber), TrimOpt(position), now, None);
    AddPlayerConsistent(db.State(), player);
    db.players := db.players[id := player];
    r := Success(ToDto(player));
    assert db.State() == before.(players := before.players[id := player], nextId := id + 1);
  }

  /**
   * `UpdatePlayerCommandHandler.Handle`: a missing player, then a missing team, are
   * refused; otherwise team, trimmed names, jersey number and position are overwritten.
   * Unlike create, blank names are accepted.
   */
  method UpdatePlayer(db: AppDbContext, id: Guid, teamId: Guid, firstName: string, lastName: string,
                      jerseyNumber: Option<string>, position: Option<string>, now: DateTime)
    returns (r: Result<PlayerDto>)
    requires db.Valid()
    modifies db
    ensures db.Valid()
    ensures id !in old(db.players) ==> r == Failure(PlayerNotFound, Some(NotFound)) && db.State() == old(db.State())
    ensures id in old(db.players) && teamId !in old(db.teams) ==>
              r == Failure(TeamNotFound, Some(NotFound)) && db.State() == old(db.State())
    ensures id in old(db.players) && teamId in old(db.teams) ==>
              var player := old(db.players)[id].(teamId := teamId, firstName := Trim(firstName), lastName := Trim(lastName),
                                                 jerseyNumber := TrimOpt(jerseyNumber), position := TrimOpt(position),
                                                 updatedAtUtc := Some(now));
              && db.State() == old(db.State()).(players := old(db.players)[id := player])
              && r == Success(ToDto(player))
              && player.id == id && player.createdAtUtc == old(db.players)[id].createdAtUtc
  {
    if id !in db.players {
      return Failure(PlayerNotFound, Some(NotFound));
    }
    if teamId !in db.teams {
      return Failure(TeamNotFound, Some(NotFound));
    }
    var player := db.players[id].(teamId := teamId, firstName := Trim(firstName), lastName := Trim(lastName),
                                  jerseyNumber := TrimOpt(jerseyNumber), position := TrimOpt(position),
                                  updatedAtUtc := Some(now));
    ghost var before := db.State();
    ReplacePlayerConsistent(before, player);
    db.players := db.players[id := player];
    r := Success(ToDto(player));
    assert db.State() == before.(players := before.players[id := player]);
  }

  /**
   * `DeletePlayerCommandHandler.Handle`: removes the player; the save fails while a
   * card or a goal still refers to it.
   */
  method DeletePlayer(db: AppDbContext, id: Guid) returns (r: Reply<bool>)
    requires db.Valid()
    modifies db
    ensures db.Valid()
    ensures id !in old(db.players) ==> r == Returned(Failure(PlayerNotFound, Some(NotFound))) && db.State() == old(db.State())
    ensures id in old(db.players) && PlayerReferenced(old(db.State()), id) ==> r == SaveFailed && db.State() == old(db.State())
    ensures id in old(db.players) && !PlayerReferenced(old(db.State()), id) ==>
              r == Returned(Success(true)) && db.State() == old(db.State()).(players := old(db.players) - {id})
  {
    if id !in db.players {
      return Returned(Failure(PlayerNotFound, Some(NotFound)));
    }
    if PlayerReferenced(db.State(), id) {
      return SaveFailed;
    }
    db.players := db.players - {id};
    r := Returned(Success(true));
  }
}
