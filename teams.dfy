/** The team commands: create, update and delete a row of `Teams`. */
module Teams {
  import opened Wrappers
  import opened Text
  import opened Entities
  import opened Results
  import opened Persistence

  datatype TeamDto = TeamDto(id: Guid, name: string, logoUrl: Option<string>, createdAtUtc: DateTime)

  function ToDto(t: Team): TeamDto {
    TeamDto(t.id, t.name, t.logoUrl, t.createdAtUtc)
  }

  const TeamNameRequired: string := "Team name is required."
  const TeamNameExists: string := "A team with this name already exists."
  const TeamNotFound: string := "Team not found."

  /**
   * `CreateTeamCommandHandler.Handle`: a blank name is refused, a name (trimmed)
   * already in use is a conflict; otherwise one team is added with trimmed name and logo.
   */
  method CreateTeam(db: AppDbContext, name: string, logoUrl: Option<string>, now: DateTime)
    returns (r: Result<TeamDto>)
    requires db.Valid()
    modifies db
    ensures db.Valid()
    ensures AllWhiteSpace(name) ==>
              r == Failure(TeamNameRequired, Some(Validation)) && db.State() == old(db.State())
    ensures !AllWhiteSpace(name) && TeamNameTaken(old(db.teams), Trim(name)) ==>
              r == Failure(TeamNameExists, Some(Conflict)) && db.State() == old(db.State())
    ensures !AllWhiteSpace(name) && !TeamNameTaken(old(db.teams), Trim(name)) ==>
              var team := Team(old(db.nextId), Trim(name), TrimOpt(logoUrl), now, None);
              && old(db.nextId) !in old(db.teams)
              && db.State() == old(db.State()).(teams := old(db.teams)[team.id := team], nextId := team.id + 1)
              && r == Success(ToDto(team))
    ensures TeamNamesDistinct(old(db.teams)) ==> TeamNamesDistinct(db.teams)
  {
    if IsNullOrWhiteSpace(Some(name)) {
      return Failure(TeamNameRequired, Some(Validation));
    }
    var trimmed := Trim(name);
    if exists k :: k in db.teams && db.teams[k].name == trimmed {
      return Failure(TeamNameExists, Some(Conflict));
    }
    ghost var before := db.State();
    var id := db.NewGuid();
    var team := Team(id, trimmed, TrimOpt(logoUrl), now, None);
    AddTeamConsistent(db.State(), team);
    if TeamNamesDistinct(before.teams) {
      AddTeamNameDistinct(before.teams, team);
    }
    db.teams := db.teams[id := team];
    r := Success(ToDto(team));
    assert db.State() == before.(teams := before.teams[id := team], nextId := id + 1);
  }

  /**
   * `UpdateTeamCommandHandler.Handle`: overwrites name and logo with their trimmed
   * values; unlike create, it checks neither blank nor repeated names.
   */
  method UpdateTeam(db: AppDbContext, id: Guid, name: string, logoUrl: Option<string>, now: DateTime)
    returns (r: Result<TeamDto>)
    requires db.Valid()
    modifies db
    ensures db.Valid()
    ensures id !in old(db.teams) ==> r == Failure(TeamNotFound, Some(NotFound)) && db.State() == old(db.State())
    ensures id in old(db.teams) ==>
              var team := old(db.teams)[id].(name := Trim(name), logoUrl := TrimOpt(logoUrl), updatedAtUtc := Some(now));
              && db.State() == old(db.State()).(teams := old(db.teams)[id := team])
              && r == Success(ToDto(team))
              && team.id == id && team.createdAtUtc == old(db.teams)[id].createdAtUtc
  {
    if id !in db.teams {
      return Failure(TeamNotFound, Some(NotFound));
    }
    var team := db.teams[id].(name := Trim(name), logoUrl := TrimOpt(logoUrl), updatedAtUtc := Some(now));
    db.teams := db.teams[id := team];
    r := Success(ToDto(team));
  }

  /**
   * `DeleteTeamCommandHandler.Handle`: removes the team; the save fails while a
   * player or a match still refers to it.
   */
  method DeleteTeam(db: AppDbContext, id: Guid) returns (r: Reply<bool>)
    requires db.Valid()
    modifies db
    ensures db.Valid()
    ensures id !in old(db.teams) ==> r == Returned(Failure(TeamNotFound, Some(NotFound))) && db.State() == old(db.State())
    ensures id in old(db.teams) && TeamReferenced(old(db.State()), id) ==> r == SaveFailed && db.State() == old(db.State())
    ensures id in old(db.teams) && !TeamReferenced(old(db.State()), id) ==>
              r == Returned(Success(true)) && db.State() == old(db.State()).(teams := old(db.teams) - {id})
  {
    if id !in db.teams {
      return Returned(Failure(TeamNotFound, Some(NotFound)));
    }
    if TeamReferenced(db.State(), id) {
      return SaveFailed;
    }
    db.teams := db.teams - {id};
    r := Returned(Success(true));
  }
}
