/** The referee commands: create, update and delete a row of `Referees`. */
module Referees {
  import opened Wrappers
  import opened Text
  import opened Entities
  import opened Results
  import opened Persistence

  datatype RefereeDto = RefereeDto(id: Guid, firstName: string, lastName: string,
                                   licenseNumber: Option<string>, createdAtUtc: DateTime)

  function ToDto(r: Referee): RefereeDto {
    RefereeDto(r.id, r.firstName, r.lastName, r.licenseNumber, r.createdAtUtc)
  }

  const FirstNameRequired: string := "El nombre es obligatorio."
  const LastNameRequired: string := "El apellido es obligatorio."
  const RefereeNotFound: string := "Árbitro no encontrado."

  /**
   * `CreateRefereeCommandHandler.Handle`: a blank first name, then a blank last
   * name, are refused; otherwise one referee is added with trimmed names and licence.
   */
  method CreateReferee(db: AppDbContext, firstName: string, lastName: string, licenseNumber: Option<string>,
                       now: DateTime)
    returns (r: Result<RefereeDto>)
    requires db.Valid()
    modifies db
    ensures db.Valid()
    ensures AllWhiteSpace(firstName) ==>
              r == Failure(FirstNameRequired, Some(Validation)) && db.State() == old(db.State())
    ensures !AllWhiteSpace(firstName) && AllWhiteSpace(lastName) ==>
              r == Failure(LastNameRequired, Some(Validation)) && db.State() == old(db.State())
    ensures !AllWhiteSpace(firstName) && !AllWhiteSpace(lastName) ==>
              var referee := Referee(old(db.nextId), Trim(firstName), Trim(lastName), TrimOpt(licenseNumber), now, None);
              && old(db.nextId) !in old(db.referees)
              && db.State() == old(db.State()).(referees := old(db.referees)[referee.id := referee], nextId := referee.id + 1)
              && r == Success(ToDto(referee))
  {
    if IsNullOrWhiteSpace(Some(firstName)) {
      return Failure(FirstNameRequired, Some(Validation));
    }
    if IsNullOrWhiteSpace(Some(lastName)) {
      return Failure(LastNameRequired, Some(Validation));
    }
    ghost var before := db.State();
    var id := db.NewGuid();
    var referee := Referee(id, Trim(firstName), Trim(lastName), TrimOpt(licenseNumber), now, None);
    AddRefereeConsistent(db.State(), referee);
    db.referees := db.referees[id := referee];
    r := Success(ToDto(referee));
    assert db.State() == before.(referees := before.referees[id := referee], nextId := id + 1);
  }

  /**
   * `UpdateRefereeCommandHandler.Handle`: a missing referee is refused before the
   * names are looked at; then blank names are refused as on create; otherwise names
   * and licence are overwritten with their trimmed values.
   */
  method UpdateReferee(db: AppDbContext, id: Guid, firstName: string, lastName: string,
                       licenseNumber: Option<string>, now: DateTime)
    returns (r: Result<RefereeDto>)
    requires db.Valid()
    modifies db
    ensures db.Valid()
    ensures id !in old(db.referees) ==> r == Failure(RefereeNotFound, Some(NotFound)) && db.State() == old(db.State())
    ensures id in old(db.referees) && AllWhiteSpace(firstName) ==>
              r == Failure(FirstNameRequired, Some(Validation)) && db.State() == old(db.State())
    ensures id in old(db.referees) && !AllWhiteSpace(firstName) && AllWhiteSpace(lastName) ==>
              r == Failure(LastNameRequired, Some(Validation)) && db.State() == old(db.State())
    ensures id in old(db.referees) && !AllWhiteSpace(firstName) && !AllWhiteSpace(lastName) ==>
              var referee := old(db.referees)[id].(firstName := Trim(firstName), lastName := Trim(lastName),
                                                   licenseNumber := TrimOpt(licenseNumber), updatedAtUtc := Some(now));
              && db.State() == old(db.State()).(referees := old(db.referees)[id := referee])
              && r == Success(ToDto(referee))
              && referee.id == id && referee.createdAtUtc == old(db.referees)[id].createdAtUtc
              && referee.firstName != [] && referee.lastName != []
  {
    if id !in db.referees {
      return Failure(RefereeNotFound, Some(NotFound));
    }
    if IsNullOrWhiteSpace(Some(firstName)) {
      return Failure(FirstNameRequired, Some(Validation));
    }
    if IsNullOrWhiteSpace(Some(lastName)) {
      return Failure(LastNameRequired, Some(Validation));
    }
    var referee := db.referees[id].(firstName := Trim(firstName), lastName := Trim(lastName),
                                    licenseNumber := TrimOpt(licenseNumber), updatedAtUtc := Some(now));
    db.referees := db.referees[id := referee];
    r := Success(ToDto(referee));
  }

  /**
   * `DeleteRefereeCommandHandler.Handle`: removes the referee; `ON DELETE SET NULL`
   * clears it from every match it was assigned to, and nothing else changes.
   */
  method DeleteReferee(db: AppDbContext, id: Guid) returns (r: Result<bool>)
    requires db.Valid()
    modifies db
    ensures db.Valid()
    ensures id !in old(db.referees) ==> r == Failure(RefereeNotFound, Some(NotFound)) && db.State() == old(db.State())
    ensures id in old(db.referees) ==>
              && r == Success(true)
              && db.State() == old(db.State()).(referees := old(db.referees) - {id}, matches := ClearReferee(old(db.matches), id))
              && forall k :: k in db.matches ==> db.matches[k].refereeId != Some(id)
  {
    if id !in db.referees {
      return Failure(RefereeNotFound, Some(NotFound));
    }
    DeleteRefereeConsistent(db.State(), id);
    db.referees, db.matches := db.referees - {id}, ClearReferee(db.matches, id);
    r := Success(true);
  }
}
