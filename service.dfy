/**
 * UserServiceImpl: the service object over the user table. Each method
 * performs the source's checks in the source's order, then updates one row
 * and saves it; its postcondition ties the new table to the matching
 * function of Lifecycle or Registration.
 */
module Service {
  import opened Wrappers
  import opened Streams
  import opened Users
  import opened Lifecycle
  import opened Registration
  import opened UserFilter

  /** `listing` is an order in which the repository returns every row of `users` once. */
  ghost predicate Listing(listing: seq<int>, users: Store)
  {
    && (forall i :: 0 <= i < |listing| ==> listing[i] in users)
    && (forall k :: k in users ==> k in listing)
    && (forall i, j :: 0 <= i < j < |listing| ==> listing[i] != listing[j])
  }

  /** The rows in the repository's order. */
  function Rows(users: Store, listing: seq<int>): (r: seq<User>)
    requires forall i :: 0 <= i < |listing| ==> listing[i] in users
    ensures |r| == |listing|
    ensures forall i :: 0 <= i < |listing| ==> r[i] == users[listing[i]]
  {
    if listing == [] then [] else [users[listing[0]]] + Rows(users, listing[1..])
  }

  /** A derived query of the repository: the rows meeting `p`, in the repository's order. */
  function FindBy(users: Store, listing: seq<int>, p: User -> bool): (r: seq<User>)
    requires Listing(listing, users)
    ensures forall i :: 0 <= i < |r| ==> r[i] in users.Values && p(r[i])
    ensures forall k :: k in users && p(users[k]) ==> users[k] in r
  {
    var rows := Rows(users, listing);
    assert forall k :: k in users ==> users[k] in rows by {
      forall k | k in users ensures users[k] in rows {
        var i :| 0 <= i < |listing| && listing[i] == k;
        assert rows[i] == users[k];
      }
    }
    Filter(rows, p)
  }

  function HasUserType(userType: string): User -> bool
  {
    (u: User) => u.userType == userType
  }

  function IsRegistered(): User -> bool
  {
    (u: User) => u.isRegisteredInTournament
  }

  function HasStatus(status: string): User -> bool
  {
    (u: User) => u.tournamentRegistrationStatus == status
  }

  class UserServiceImpl {
    /** The repository's table, id to row. */
    var users: Store
    /** The id the next save of a new row assigns. */
    var nextId: int
    /** The password encoder the service was built with. */
    const encoder: PasswordEncoder

    ghost predicate Valid()
      reads this
    {
      UniqueUsernames(users) && forall k :: k in users ==> k < nextId
    }

    constructor (encoder: PasswordEncoder)
      ensures Valid() && users == map[] && this.encoder == encoder
    {
      users := map[];
      nextId := 1;
      this.encoder := encoder;
    }

    /** registerUser. */
    method RegisterUser(dto: SignUpDto, mapped: MappedDefaults, salt: Salt) returns (r: Result<Saved, Error>)
      requires Valid()
      modifies this
      ensures Valid()
      ensures Outcome(users, r) == Lifecycle.RegisterUser(old(users), encoder, dto, mapped, salt, old(nextId))
      ensures nextId == if r.Ok? then old(nextId) + 1 else old(nextId)
    {
      if !ValidCredentials(dto.username, dto.name, dto.password, dto.email) {
        return Err(IllegalArgument(BlankCredentials));
      }
      if UsernameTaken(users, dto.username.value) {
        return Err(DataIntegrityViolation);
      }
      var hash := encoder.encode(dto.password.value, salt);
      var user := User(dto.username.value, dto.name.value, hash, dto.email.value,
                       mapped.userType, mapped.isRegisteredInTournament, mapped.tournamentRegistrationStatus);
      var id := nextId;
      users := users[id := user];
      nextId := nextId + 1;
      r := Ok(Saved(id, user));
    }

    /** loginUser: reads the table and never changes it. */
    method LoginUser(dto: SignInDto) returns (r: Result<User, Error>)
      requires Valid()
      ensures r == Lifecycle.LoginUser(users, encoder, dto)
    {
      if !UsernameTaken(users, dto.username) {
        return Err(NoSuchElement);
      }
      var k :| k in users && users[k].username == dto.username;
      var user := users[k];
      if !encoder.matches(dto.password, user.password) {
        return Err(IllegalArgument(InvalidPassword));
      }
      r := Ok(user);
    }

    /** updateUserCredentials. */
    method UpdateUserCredentials(dto: CredentialsDto, id: int, salt: Salt) returns (r: Result<User, Error>)
      requires Valid()
      modifies this
      ensures Valid() && nextId == old(nextId)
      ensures Outcome(users, r) == Lifecycle.UpdateUserCredentials(old(users), encoder, dto, id, salt)
    {
      if id !in users {
        return Err(NoSuchElement);
      }
      var user := users[id];
      if !ValidCredentials(dto.username, dto.name, dto.newPassword, dto.email) {
        return Err(IllegalArgument(BlankCredentials));
      }
      if !encoder.matches(dto.oldPassword, user.password) {
        return Err(IllegalArgument(InvalidOldPassword));
      }
      if UsernameHeldByOther(users, dto.username.value, id) {
        return Err(IllegalArgument(UsernameInUse));
      }
      if NameHeldByOther(users, dto.name.value, id) {
        return Err(IllegalArgument(NameInUse));
      }
      user := user.(username := dto.username.value);
      user := user.(name := dto.name.value);
      user := user.(password := encoder.encode(dto.newPassword.value, salt));
      WriteKeepsUnique(users, id, user);
      users := users[id := user];
      r := Ok(user);
    }

    /** addUser. */
    method AddUser(dto: UserDto, salt: Salt) returns (r: Result<Saved, Error>)
      requires Valid()
      modifies this
      ensures Valid()
      ensures Outcome(users, r) == Lifecycle.AddUser(old(users), encoder, dto, salt, old(nextId))
      ensures nextId == if r.Ok? then old(nextId) + 1 else old(nextId)
    {
      if !ValidCredentials(dto.username, dto.name, dto.password, dto.email) {
        return Err(IllegalArgument(BlankCredentials));
      }
      if UsernameTaken(users, dto.username.value) {
        return Err(DataIntegrityViolation);
      }
      var hash := encoder.encode(dto.password.value, salt);
      var user := FromDto(dto, hash);
      var id := nextId;
      users := users[id := user];
      nextId := nextId + 1;
      r := Ok(Saved(id, user));
    }

    /** updateUser. */
    method UpdateUser(dto: UserDto, id: int, salt: Salt) returns (r: Result<User, Error>)
      requires Valid()
      modifies this
      ensures Valid() && nextId == old(nextId)
      ensures Outcome(users, r) == Lifecycle.UpdateUser(old(users), encoder, dto, id, salt)
    {
      if id !in users {
        return Err(NoSuchElement);
      }
      var user := users[id];
      if !ValidCredentials(dto.username, dto.name, dto.password, dto.email) {
        return Err(IllegalArgument(BlankCredentials));
      }
      if UsernameHeldByOther(users, dto.username.value, id) {
        return Err(IllegalArgument(UsernameInUse));
      }
      if NameHeldByOther(users, dto.name.value, id) {
        return Err(IllegalArgument(NameInUse));
      }
      user := user.(username := dto.username.value);
      user := user.(name := dto.name.value);
      user := user.(password := encoder.encode(dto.password.value, salt));
      user := user.(email := dto.email.value);
      user := user.(userType := dto.userType);
      user := user.(isRegisteredInTournament := dto.isRegisteredInTournament);
      user := user.(tournamentRegistrationStatus := dto.tournamentRegistrationStatus);
      WriteKeepsUnique(users, id, user);
      users := users[id := user];
      r := Ok(user);
    }

    /** deleteUser. */
    method DeleteUser(id: int) returns (r: Result<(), Error>)
      requires Valid()
      modifies this
      ensures Valid() && nextId == old(nextId)
      ensures Outcome(users, r) == Lifecycle.DeleteUser(old(users), id)
    {
      if id !in users {
        return Err(NoSuchElement);
      }
      users := users - {id};
      r := Ok(());
    }

    /** quitTournamentUser. */
    method QuitTournamentUser(id: int) returns (r: Result<User, Error>)
      requires Valid()
      modifies this
      ensures Valid() && nextId == old(nextId)
      ensures Outcome(users, r) == QuitTournament(old(users), id)
    {
      if id !in users {
        return Err(NoSuchElement);
      }
      var user := users[id];
      user := user.(isRegisteredInTournament := false);
      user := user.(tournamentRegistrationStatus := NONE);
      TransitionsKeepUnique(users, id);
      users := users[id := user];
      r := Ok(user);
    }

    /** requestTournamentRegistration; the administrators' notification is not modelled. */
    method RequestTournamentRegistration(id: int) returns (r: Result<User, Error>)
      requires Valid()
      modifies this
      ensures Valid() && nextId == old(nextId)
      ensures Outcome(users, r) == RequestRegistration(old(users), id)
    {
      if id !in users {
        return Err(NoSuchElement);
      }
      var user := users[id];
      if user.userType == PLAYER {
        user := user.(tournamentRegistrationStatus := PENDING);
        user := user.(isRegisteredInTournament := false);
      }
      TransitionsKeepUnique(users, id);
      users := users[id := user];
      r := Ok(user);
    }

    /** acceptTournamentRegistration; the user's notification is not modelled. */
    method AcceptTournamentRegistration(id: int) returns (r: Result<User, Error>)
      requires Valid()
      modifies this
      ensures Valid() && nextId == old(nextId)
      ensures Outcome(users, r) == AcceptRegistration(old(users), id)
    {
      if id !in users {
        return Err(NoSuchElement);
      }
      var user := users[id];
      user := user.(isRegisteredInTournament := true);
      user := user.(tournamentRegistrationStatus := ACCEPTED);
      TransitionsKeepUnique(users, id);
      users := users[id := user];
      r := Ok(user);
    }

    /** rejectTournamentRegistration; the user's notification is not modelled. */
    method RejectTournamentRegistration(id: int) returns (r: Result<User, Error>)
      requires Valid()
      modifies this
      ensures Valid() && nextId == old(nextId)
      ensures Outcome(users, r) == RejectRegistration(old(users), id)
    {
      if id !in users {
        return Err(NoSuchElement);
      }
      var user := users[id];
      user := user.(isRegisteredInTournament := false);
      user := user.(tournamentRegistrationStatus := REJECTED);
      TransitionsKeepUnique(users, id);
      users := users[id := user];
      r := Ok(user);
    }

    /**
     * filterUsers: the players, in the repository's order, that meet every
     * supplied filter.
     */
    function FilterUsers(listing: seq<int>, name: JString, username: JString, isCompeting: Option<bool>): (r: seq<User>)
      reads this
      requires Listing(listing, users)
      ensures r == Filter(FindBy(users, listing, HasUserType(PLAYER)), Keep(name, username, isCompeting))
      ensures forall i :: 0 <= i < |r| ==>
        r[i] in users.Values && r[i].userType == PLAYER && Selected(r[i], name, username, isCompeting)
      ensures forall k :: k in users && users[k].userType == PLAYER && Selected(users[k], name, username, isCompeting) ==>
        users[k] in r
    {
      var players := FindBy(users, listing, HasUserType(PLAYER));
      FilterUsersIsOneFilter(players, name, username, isCompeting);
      FilterUsersSelects(players, name, username, isCompeting);
      UserFilter.FilterUsers(players, name, username, isCompeting)
    }

    /** findRegisteredPlayers: every row whose registration flag is set, whatever its role. */
    function FindRegisteredPlayers(listing: seq<int>): (r: seq<User>)
      reads this
      requires Listing(listing, users)
      ensures forall i :: 0 <= i < |r| ==> r[i] in users.Values && r[i].isRegisteredInTournament
      ensures forall k :: k in users && users[k].isRegisteredInTournament ==> users[k] in r
    {
      FindBy(users, listing, IsRegistered())
    }

    /** findUserByStatus. */
    function FindUserByStatus(listing: seq<int>, status: string): (r: seq<User>)
      reads this
      requires Listing(listing, users)
      ensures forall i :: 0 <= i < |r| ==> r[i] in users.Values && r[i].tournamentRegistrationStatus == status
      ensures forall k :: k in users && users[k].tournamentRegistrationStatus == status ==> users[k] in r
    {
      FindBy(users, listing, HasStatus(status))
    }
  }
}
