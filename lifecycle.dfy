/**
 * Sign-up, sign-in, credential update and the administrative create, update
 * and delete of UserServiceImpl, each as a function from the store before the
 * call to the store after it and what the call returned or threw.
 */
module Lifecycle {
  import opened Wrappers
  import opened Users

  /** A row as saved by the repository, with the id the save assigned. */
  datatype Saved = Saved(id: int, user: User)

  /**
   * registerUser: validate, refuse a taken username, encode the password and
   * save the mapped row under the fresh id `id` that the save assigns. The
   * name is not checked for uniqueness.
   */
  ghost function RegisterUser(s: Store, enc: PasswordEncoder, dto: SignUpDto, mapped: MappedDefaults, salt: Salt, id: int): (o: Outcome<Saved>)
    requires id !in s
    ensures !ValidCredentials(dto.username, dto.name, dto.password, dto.email) ==>
      o == Outcome(s, Err(IllegalArgument(BlankCredentials)))
    ensures ValidCredentials(dto.username, dto.name, dto.password, dto.email) && UsernameTaken(s, dto.username.value) ==>
      o == Outcome(s, Err(DataIntegrityViolation))
    ensures o.result.Ok? <==> ValidCredentials(dto.username, dto.name, dto.password, dto.email) && !UsernameTaken(s, dto.username.value)
    ensures o.result.Ok? ==>
      && o.result.value.id == id
      && o.store == s[id := o.result.value.user]
      && o.result.value.user.username == dto.username.value
      && o.result.value.user.name == dto.name.value
      && o.result.value.user.email == dto.email.value
      && o.result.value.user.password == enc.encode(dto.password.value, salt)
      && o.result.value.user.userType == mapped.userType
      && o.result.value.user.isRegisteredInTournament == mapped.isRegisteredInTournament
      && o.result.value.user.tournamentRegistrationStatus == mapped.tournamentRegistrationStatus
    ensures UniqueUsernames(s) ==> UniqueUsernames(o.store)
  {
    if !ValidCredentials(dto.username, dto.name, dto.password, dto.email) then
      Outcome(s, Err(IllegalArgument(BlankCredentials)))
    else if UsernameTaken(s, dto.username.value) then
      Outcome(s, Err(DataIntegrityViolation))
    else
      var user := User(dto.username.value, dto.name.value, enc.encode(dto.password.value, salt), dto.email.value,
                       mapped.userType, mapped.isRegisteredInTournament, mapped.tournamentRegistrationStatus);
      WriteKeepsUnique(s, id, user);
      Outcome(s[id := user], Ok(Saved(id, user)))
  }

  /**
   * addUser: the administrative create. Same checks as sign-up; the row takes
   * every column from the request, with the password encoded.
   */
  ghost function AddUser(s: Store, enc: PasswordEncoder, dto: UserDto, salt: Salt, id: int): (o: Outcome<Saved>)
    requires id !in s
    ensures !ValidCredentials(dto.username, dto.name, dto.password, dto.email) ==>
      o == Outcome(s, Err(IllegalArgument(BlankCredentials)))
    ensures ValidCredentials(dto.username, dto.name, dto.password, dto.email) && UsernameTaken(s, dto.username.value) ==>
      o == Outcome(s, Err(DataIntegrityViolation))
    ensures o.result.Ok? <==> ValidCredentials(dto.username, dto.name, dto.password, dto.email) && !UsernameTaken(s, dto.username.value)
    ensures o.result.Ok? ==>
      && o.result.value.id == id
      && o.store == s[id := o.result.value.user]
      && o.result.value.user == FromDto(dto, enc.encode(dto.password.value, salt))
    ensures UniqueUsernames(s) ==> UniqueUsernames(o.store)
  {
    if !ValidCredentials(dto.username, dto.name, dto.password, dto.email) then
      Outcome(s, Err(IllegalArgument(BlankCredentials)))
    else if UsernameTaken(s, dto.username.value) then
      Outcome(s, Err(DataIntegrityViolation))
    else
      var user := FromDto(dto, enc.encode(dto.password.value, salt));
      WriteKeepsUnique(s, id, user);
      Outcome(s[id := user], Ok(Saved(id, user)))
  }

  /** The row a UserDTO describes once its password has been encoded to `hash`. */
  function FromDto(dto: UserDto, hash: string): User
    requires dto.username.Some? && dto.name.Some? && dto.email.Some?
  {
    User(dto.username.value, dto.name.value, hash, dto.email.value,
         dto.userType, dto.isRegisteredInTournament, dto.tournamentRegistrationStatus)
  }

  /**
   * loginUser: the row holding the username, provided the raw password
   * matches its stored hash. It never changes the store.
   */
  ghost function LoginUser(s: Store, enc: PasswordEncoder, dto: SignInDto): (r: Result<User, Error>)
    requires UniqueUsernames(s)
    ensures !UsernameTaken(s, dto.username) <==> r == Err(NoSuchElement)
    ensures r.Err? && r.error != NoSuchElement ==> r.error == IllegalArgument(InvalidPassword)
    ensures forall k :: k in s && s[k].username == dto.username ==>
      r == if enc.matches(dto.password, s[k].password) then Ok(s[k]) else Err(IllegalArgument(InvalidPassword))
  {
    if !UsernameTaken(s, dto.username) then Err(NoSuchElement)
    else
      var k :| k in s && s[k].username == dto.username;
      if !enc.matches(dto.password, s[k].password) then Err(IllegalArgument(InvalidPassword))
      else Ok(s[k])
  }

  /**
   * updateUserCredentials: checks, in this order, that the row exists, that
   * the new fields are valid, that the old password matches, that no other
   * row holds the username and that no other row holds the name; only then
   * overwrites username, name and password. The email is validated but not
   * written.
   */
  ghost function UpdateUserCredentials(s: Store, enc: PasswordEncoder, dto: CredentialsDto, id: int, salt: Salt): (o: Outcome<User>)
    ensures id !in s ==> o == Outcome(s, Err(NoSuchElement))
    ensures id in s && !ValidCredentials(dto.username, dto.name, dto.newPassword, dto.email) ==>
      o == Outcome(s, Err(IllegalArgument(BlankCredentials)))
    ensures id in s && ValidCredentials(dto.username, dto.name, dto.newPassword, dto.email) ==>
      && (!enc.matches(dto.oldPassword, s[id].password) ==>
            o == Outcome(s, Err(IllegalArgument(InvalidOldPassword))))
      && (enc.matches(dto.oldPassword, s[id].password) && UsernameHeldByOther(s, dto.username.value, id) ==>
            o == Outcome(s, Err(IllegalArgument(UsernameInUse))))
      && (enc.matches(dto.oldPassword, s[id].password) && !UsernameHeldByOther(s, dto.username.value, id)
          && NameHeldByOther(s, dto.name.value, id) ==>
            o == Outcome(s, Err(IllegalArgument(NameInUse))))
    ensures o.result.Ok? <==>
      && id in s
      && ValidCredentials(dto.username, dto.name, dto.newPassword, dto.email)
      && enc.matches(dto.oldPassword, s[id].password)
      && !UsernameHeldByOther(s, dto.username.value, id)
      && !NameHeldByOther(s, dto.name.value, id)
    ensures o.result.Ok? ==>
      && o.store == s[id := o.result.value]
      && o.result.value.username == dto.username.value
      && o.result.value.name == dto.name.value
      && o.result.value.password == enc.encode(dto.newPassword.value, salt)
      && o.result.value.email == s[id].email
      && o.result.value.userType == s[id].userType
      && o.result.value.isRegisteredInTournament == s[id].isRegisteredInTournament
      && o.result.value.tournamentRegistrationStatus == s[id].tournamentRegistrationStatus
    ensures UniqueUsernames(s) ==> UniqueUsernames(o.store)
  {
    if id !in s then Outcome(s, Err(NoSuchElement))
    else if !ValidCredentials(dto.username, dto.name, dto.newPassword, dto.email) then
      Outcome(s, Err(IllegalArgument(BlankCredentials)))
    else if !enc.matches(dto.oldPassword, s[id].password) then
      Outcome(s, Err(IllegalArgument(InvalidOldPassword)))
    else if UsernameHeldByOther(s, dto.username.value, id) then
      Outcome(s, Err(IllegalArgument(UsernameInUse)))
    else if NameHeldByOther(s, dto.name.value, id) then
      Outcome(s, Err(IllegalArgument(NameInUse)))
    else
      var user := s[id].(username := dto.username.value, name := dto.name.value,
                         password := enc.encode(dto.newPassword.value, salt));
      WriteKeepsUnique(s, id, user);
      Outcome(s[id := user], Ok(user))
  }

  /**
   * updateUser: the administrative update. Existence first, then validation,
   * then username and name held by another row; on success every column is
   * overwritten from the request.
   */
  ghost function UpdateUser(s: Store, enc: PasswordEncoder, dto: UserDto, id: int, salt: Salt): (o: Outcome<User>)
    ensures id !in s ==> o == Outcome(s, Err(NoSuchElement))
    ensures id in s && !ValidCredentials(dto.username, dto.name, dto.password, dto.email) ==>
      o == Outcome(s, Err(IllegalArgument(BlankCredentials)))
    ensures id in s && ValidCredentials(dto.username, dto.name, dto.password, dto.email) ==>
      && (UsernameHeldByOther(s, dto.username.value, id) ==>
            o == Outcome(s, Err(IllegalArgument(UsernameInUse))))
      && (!UsernameHeldByOther(s, dto.username.value, id) && NameHeldByOther(s, dto.name.value, id) ==>
            o == Outcome(s, Err(IllegalArgument(NameInUse))))
    ensures o.result.Ok? <==>
      && id in s
      && ValidCredentials(dto.username, dto.name, dto.password, dto.email)
      && !UsernameHeldByOther(s, dto.username.value, id)
      && !NameHeldByOther(s, dto.name.value, id)
    ensures o.result.Ok? ==>
      && o.store == s[id := o.result.value]
      && o.result.value == FromDto(dto, enc.encode(dto.password.value, salt))
    ensures UniqueUsernames(s) ==> UniqueUsernames(o.store)
  {
    if id !in s then Outcome(s, Err(NoSuchElement))
    else if !ValidCredentials(dto.username, dto.name, dto.password, dto.email) then
      Outcome(s, Err(IllegalArgument(BlankCredentials)))
    else if UsernameHeldByOther(s, dto.username.value, id) then
      Outcome(s, Err(IllegalArgument(UsernameInUse)))
    else if NameHeldByOther(s, dto.name.value, id) then
      Outcome(s, Err(IllegalArgument(NameInUse)))
    else
      var user := FromDto(dto, enc.encode(dto.password.value, salt));
      WriteKeepsUnique(s, id, user);
      Outcome(s[id := user], Ok(user))
  }

  /** deleteUser: NotFound for an absent id, otherwise exactly that row goes. */
  ghost function DeleteUser(s: Store, id: int): (o: Outcome<()>)
    ensures id !in s <==> o == Outcome(s, Err(NoSuchElement))
    ensures id in s ==> o.result.Ok? && o.store.Keys == s.Keys - {id}
    ensures forall k :: k in o.store ==> k in s && o.store[k] == s[k]
    ensures UniqueUsernames(s) ==> UniqueUsernames(o.store)
  {
    if id !in s then Outcome(s, Err(NoSuchElement)) else Outcome(s - {id}, Ok(()))
  }

  /** A user who has just signed up can sign in with the same username and raw password. */
  lemma RegisteredUserCanLogIn(s: Store, enc: PasswordEncoder, dto: SignUpDto, mapped: MappedDefaults, salt: Salt, id: int)
    requires Sound(enc) && UniqueUsernames(s) && id !in s
    requires RegisterUser(s, enc, dto, mapped, salt, id).result.Ok?
    ensures var o := RegisterUser(s, enc, dto, mapped, salt, id);
      && UniqueUsernames(o.store)
      && LoginUser(o.store, enc, SignInDto(dto.username.value, dto.password.value)) == Ok(o.result.value.user)
  {
    var o := RegisterUser(s, enc, dto, mapped, salt, id);
    assert o.store[id].username == dto.username.value;
    assert enc.matches(dto.password.value, enc.encode(dto.password.value, salt));
  }

  /** Deleting the row that sign-up just created gives back the store as it was. */
  lemma DeleteUndoesRegister(s: Store, enc: PasswordEncoder, dto: SignUpDto, mapped: MappedDefaults, salt: Salt, id: int)
    requires id !in s
    requires RegisterUser(s, enc, dto, mapped, salt, id).result.Ok?
    ensures DeleteUser(RegisterUser(s, enc, dto, mapped, salt, id).store, id) == Outcome(s, Ok(()))
  {
    var t := RegisterUser(s, enc, dto, mapped, salt, id).store;
    assert t - {id} == s;
  }

  /** After a credential update, the new username and new raw password sign in to the updated row. */
  lemma UpdatedCredentialsLogIn(s: Store, enc: PasswordEncoder, dto: CredentialsDto, id: int, salt: Salt)
    requires Sound(enc) && UniqueUsernames(s)
    requires UpdateUserCredentials(s, enc, dto, id, salt).result.Ok?
    ensures var o := UpdateUserCredentials(s, enc, dto, id, salt);
      && UniqueUsernames(o.store)
      && LoginUser(o.store, enc, SignInDto(dto.username.value, dto.newPassword.value)) == Ok(o.store[id])
  {
    var o := UpdateUserCredentials(s, enc, dto, id, salt);
    assert o.store[id].username == dto.username.value;
    assert enc.matches(dto.newPassword.value, enc.encode(dto.newPassword.value, salt));
  }

  /**
   * A credential update refused because another row holds the new username
   * leaves the row signing in as before, with its old username and password.
   */
  lemma RefusedUpdateKeepsLogin(s: Store, enc: PasswordEncoder, dto: CredentialsDto, id: int, salt: Salt, password: string)
    requires UniqueUsernames(s) && id in s
    requires ValidCredentials(dto.username, dto.name, dto.newPassword, dto.email)
    requires enc.matches(dto.oldPassword, s[id].password) && enc.matches(password, s[id].password)
    requires UsernameHeldByOther(s, dto.username.value, id)
    ensures var o := UpdateUserCredentials(s, enc, dto, id, salt);
      && o.result == Err(IllegalArgument(UsernameInUse))
      && LoginUser(o.store, enc, SignInDto(s[id].username, password)) == Ok(s[id])
  {
  }

  /**
   * Sign-up never checks names, so two rows can share one. In the model, where
   * a name lookup reports any other row holding the name, the administrative
   * update of either row that keeps the name is then refused.
   */
  lemma SharedNameBlocksUpdate(s: Store, enc: PasswordEncoder, dto: UserDto, id: int, other: int, salt: Salt)
    requires id in s && other in s && other != id && s[other].name == s[id].name
    requires ValidCredentials(dto.username, dto.name, dto.password, dto.email)
    requires dto.name.value == s[id].name && !UsernameHeldByOther(s, dto.username.value, id)
    ensures UpdateUser(s, enc, dto, id, salt) == Outcome(s, Err(IllegalArgument(NameInUse)))
  {
    assert NameHeldByOther(s, dto.name.value, id);
  }
}
