/**
 * Account registration and login. Hashing, password verification and token
 * generation are outside the model: the hash and salt of a new password enter
 * registration as parameters, and login takes the verifier and the token
 * generator as functions.
 */
module Auth {
  import opened Wrappers
  import opened Text
  import opened Entities
  import opened Results
  import opened Persistence

  datatype RegisterResponse = RegisterResponse(userName: string, message: string)
  datatype LoginResponse = LoginResponse(token: string, userName: string)

  /** Column widths of `Users.UserName` and `Users.Email`, and the minimum lengths, in UTF-16 code units. */
  const UserNameMaxLength: nat := 100
  const EmailMaxLength: nat := 256
  const MinUserNameLength: nat := 3
  const MinPasswordLength: nat := 6

  const UserNameInvalid: string := "El nombre de usuario es obligatorio y debe tener al menos 3 caracteres."
  const PasswordInvalid: string := "La contraseña debe tener al menos 6 caracteres."
  const UserNameTaken: string := "Ya existe un usuario con ese nombre. Elige otro."
  const EmailTaken: string := "Ya existe una cuenta con ese correo."
  const SchemaOutdated: string := "Error al guardar la cuenta. Actualice la base de datos con las migraciones más recientes (ejecute la aplicación o aplique las migraciones)."
  const Registered: string := "Cuenta creada. Ya puedes iniciar sesión."
  const CredentialsRequired: string := "Usuario y contraseña son obligatorios."
  const CredentialsInvalid: string := "Usuario o contraseña incorrectos."

  predicate UserNameExists(users: map<Guid, User>, userName: string) {
    exists k :: k in users && users[k].userName == userName
  }

  predicate EmailExists(users: map<Guid, User>, email: string) {
    exists k :: k in users && users[k].email == Some(email)
  }

  /** Adding a user whose name nobody has, under a fresh id, keeps every constraint. */
  lemma AddUserConsistent(t: Tables, user: User)
    requires Consistent(t) && user.id < t.nextId && user.id !in t.users && !UserNameExists(t.users, user.userName)
    ensures Consistent(t.(users := t.users[user.id := user]))
  {
  }

  /**
   * `RegisterCommandHandler.Handle`. The trimmed user name must be at least 3 UTF-16
   * code units long, then the password at least 6; a taken user name and then a taken
   * (non-empty, trimmed) email are conflicts. A name or email wider than its column
   * makes the save fail with a truncation error, reported as the outdated-schema
   * message. Otherwise one user is added, with a null email when it was empty.
   */
  method Register(db: AppDbContext, userName: Option<string>, email: Option<string>, password: Option<string>,
                  hash: string, salt: string, now: DateTime)
    returns (r: Result<RegisterResponse>)
    requires db.Valid()
    modifies db
    ensures db.Valid()
    ensures var name := TrimOpt(userName);
            IsNullOrEmpty(name) || Utf16Length(name.value) < MinUserNameLength ==>
              r == Failure(UserNameInvalid, Some(Validation)) && db.State() == old(db.State())
    ensures var name := TrimOpt(userName);
            !IsNullOrEmpty(name) && Utf16Length(name.value) >= MinUserNameLength ==>
              && (IsNullOrEmpty(password) || Utf16Length(password.value) < MinPasswordLength ==>
                    r == Failure(PasswordInvalid, Some(Validation)) && db.State() == old(db.State()))
              && (!IsNullOrEmpty(password) && Utf16Length(password.value) >= MinPasswordLength && UserNameExists(old(db.users), name.value) ==>
                    r == Failure(UserNameTaken, Some(Conflict)) && db.State() == old(db.State()))
    ensures var name := TrimOpt(userName);
            var mail := TrimOpt(email);
            !IsNullOrEmpty(name) && Utf16Length(name.value) >= MinUserNameLength
            && !IsNullOrEmpty(password) && Utf16Length(password.value) >= MinPasswordLength && !UserNameExists(old(db.users), name.value) ==>
              && (!IsNullOrEmpty(mail) && EmailExists(old(db.users), mail.value) ==>
                    r == Failure(EmailTaken, Some(Conflict)) && db.State() == old(db.State()))
              && (IsNullOrEmpty(mail) || !EmailExists(old(db.users), mail.value) ==>
                    var stored := if IsNullOrEmpty(mail) then None else mail;
                    if Utf16Length(name.value) > UserNameMaxLength || (stored.Some? && Utf16Length(stored.value) > EmailMaxLength) then
                      r == Failure(SchemaOutdated, Some(Validation)) && db.State() == old(db.State())
                    else
                      var user := User(old(db.nextId), name.value, stored, hash, salt, now);
                      && db.State() == old(db.State()).(users := old(db.users)[user.id := user], nextId := user.id + 1)
                      && r == Success(RegisterResponse(name.value, Registered)))
  {
    var name := TrimOpt(userName);
    var mail := TrimOpt(email);
    if IsNullOrEmpty(name) || Utf16Length(name.value) < MinUserNameLength {
      return Failure(UserNameInvalid, Some(Validation));
    }
    if IsNullOrEmpty(password) || Utf16Length(password.value) < MinPasswordLength {
      return Failure(PasswordInvalid, Some(Validation));
    }
    if exists k :: k in db.users && db.users[k].userName == name.value {
      return Failure(UserNameTaken, Some(Conflict));
    }
    if !IsNullOrEmpty(mail) {
      if exists k :: k in db.users && db.users[k].email == Some(mail.value) {
        return Failure(EmailTaken, Some(Conflict));
      }
    }
    var stored := if IsNullOrEmpty(mail) then None else mail;
    if Utf16Length(name.value) > UserNameMaxLength || (stored.Some? && Utf16Length(stored.value) > EmailMaxLength) {
      return Failure(SchemaOutdated, Some(Validation));
    }
    ghost var before := db.State();
    var id := db.NewGuid();
    var user := User(id, name.value, stored, hash, salt, now);
    AddUserConsistent(db.State(), user);
    db.users := db.users[id := user];
    assert db.State() == before.(users := before.users[id := user], nextId := id + 1);
    r := Success(RegisterResponse(user.userName, Registered));
  }

  /** `Users.FirstOrDefaultAsync(u => u.UserName == name)`: the one user with that name, if any. */
  function FindUser(users: map<Guid, User>, userName: string): (r: Option<User>)
    requires UserNamesUnique(users)
    ensures r.None? <==> !UserNameExists(users, userName)
    ensures r.Some? ==> r.value in users.Values && r.value.userName == userName
  {
    if UserNameExists(users, userName) then
      var k :| k in users && users[k].userName == userName;
      Some(users[k])
    else None
  }

  /**
   * `LoginCommandHandler.Handle`: an empty name or password is refused; then the
   * user is looked up by trimmed name, and an unknown user and a wrong password get
   * the same answer; otherwise the token generated for the stored name.
   */
  function Login(users: map<Guid, User>, userName: Option<string>, password: Option<string>,
                 verify: (string, string, string) -> bool, generateToken: string -> string): (r: Result<LoginResponse>)
    requires UserNamesUnique(users)
    ensures IsNullOrEmpty(userName) || IsNullOrEmpty(password) ==> r == Failure(CredentialsRequired, Some(Unauthorized))
    ensures !IsNullOrEmpty(userName) && !IsNullOrEmpty(password) ==>
              (r.isSuccess <==> exists k :: k in users && users[k].userName == Trim(userName.value)
                                             && verify(password.value, users[k].passwordHash, users[k].salt))
    ensures !IsNullOrEmpty(userName) && !IsNullOrEmpty(password) && !r.isSuccess ==>
              r == Failure(CredentialsInvalid, Some(Unauthorized))
    ensures r.isSuccess ==> r.data.Some? && r.data.value.userName == Trim(userName.value)
                            && r.data.value.token == generateToken(Trim(userName.value))
  {
    if IsNullOrEmpty(userName) || IsNullOrEmpty(password) then
      Failure(CredentialsRequired, Some(Unauthorized))
    else
      var user := FindUser(users, Trim(userName.value));
      if user.None? || !verify(password.value, user.value.passwordHash, user.value.salt) then
        Failure(CredentialsInvalid, Some(Unauthorized))
      else
        Success(LoginResponse(generateToken(user.value.userName), user.value.userName))
  }

  /**
   * A user registered with a given password can then log in with the same name
   * (surrounding spaces allowed) and password, provided the hasher verifies the
   * password against the hash and salt it produced.
   */
  lemma RegisterThenLogin(users: map<Guid, User>, user: User, userName: string, password: string,
                          verify: (string, string, string) -> bool, generateToken: string -> string)
    requires UserNamesUnique(users) && user.id !in users && !UserNameExists(users, user.userName)
    requires user.userName == Trim(userName) && Utf16Length(user.userName) >= MinUserNameLength && password != []
    requires verify(password, user.passwordHash, user.salt)
    ensures UserNamesUnique(users[user.id := user])
    ensures Login(users[user.id := user], Some(userName), Some(password), verify, generateToken)
            == Success(LoginResponse(generateToken(user.userName), user.userName))
  {
    var users' := users[user.id := user];
    assert users'[user.id].userName == Trim(userName);
    assert FindUser(users', Trim(userName)) == Some(user);
  }
}
