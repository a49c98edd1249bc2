/**
 * The user table: the User entity, the store keyed by id, the request records
 * the service receives, the errors it raises and the credential validator.
 */
module Users {
  import opened Wrappers
  import opened JavaText

  /** Registration statuses and the player role, as the service spells them. */
  const NONE: string := "NONE"
  const PENDING: string := "PENDING"
  const ACCEPTED: string := "ACCEPTED"
  const REJECTED: string := "REJECTED"
  const PLAYER: string := "player"

  /** A row of the user table; its id is the key it is stored under. */
  datatype User = User(
    username: string,
    name: string,
    password: string,  // the encoder's hash, never the raw password
    email: string,
    userType: string,
    isRegisteredInTournament: bool,
    tournamentRegistrationStatus: string)

  /** The repository's contents: id to row. */
  type Store = map<int, User>

  /** A Java String reference, which may be null. */
  type JString = Option<string>

  /** The message of each IllegalArgumentException the service throws. */
  datatype Reason =
    | BlankCredentials     // "Username, name, email and password cannot be empty."
    | InvalidPassword      // "Invalid password."
    | InvalidOldPassword   // "Invalid old password."
    | UsernameInUse        // "Username already in use by another account."
    | NameInUse            // "Name already in use by another account."

  /** The exceptions the service throws, by Java type. */
  datatype Error =
    | NoSuchElement                 // NoSuchElementException("User not found.")
    | IllegalArgument(reason: Reason)
    | DataIntegrityViolation        // DataIntegrityViolationException("Username already exists.")

  /** The store after an operation, and what the operation returned or threw. */
  datatype Outcome<T> = Outcome(store: Store, result: Result<T, Error>)

  /** Randomness the encoder draws on (bcrypt's salt). */
  type Salt = nat

  /** The PasswordEncoder collaborator: a salted one-way encoding and its check. */
  datatype PasswordEncoder = PasswordEncoder(encode: (string, Salt) -> string, matches: (string, string) -> bool)

  /** What every PasswordEncoder promises: a raw password matches its own encoding. */
  ghost predicate Sound(enc: PasswordEncoder)
  {
    forall raw: string, salt: Salt :: enc.matches(raw, enc.encode(raw, salt))
  }

  /** UserSignUpDTO. */
  datatype SignUpDto = SignUpDto(username: JString, password: JString, email: JString, name: JString, userTypeCode: JString)

  /** UserSignInDTO. */
  datatype SignInDto = SignInDto(username: string, password: string)

  /** UserUpdateCredentialsDTO. */
  datatype CredentialsDto = CredentialsDto(username: JString, name: JString, email: JString, oldPassword: string, newPassword: JString)

  /** UserDTO, the administrative view that carries every column. */
  datatype UserDto = UserDto(
    username: JString, name: JString, password: JString, email: JString,
    userType: string, isRegisteredInTournament: bool, tournamentRegistrationStatus: string)

  /**
   * The columns UserMapper.signUpDtoToEntity fills in besides the four
   * credential fields; the mapper's code is not part of this model, so they
   * are whatever the mapper chose.
   */
  datatype MappedDefaults = MappedDefaults(userType: string, isRegisteredInTournament: bool, tournamentRegistrationStatus: string)

  /** One field passes validateUserCredentials: not null and not empty once trimmed. */
  predicate Filled(s: JString)
  {
    s.Some? && Trim(s.value) != []
  }

  /** validateUserCredentials: all four fields filled. */
  predicate ValidCredentials(username: JString, name: JString, password: JString, email: JString)
  {
    Filled(username) && Filled(name) && Filled(password) && Filled(email)
  }

  /**
   * validateUserCredentials passes exactly when none of the four fields is
   * null or made only of characters at or below U+0020.
   */
  lemma ValidCredentialsIff(username: JString, name: JString, password: JString, email: JString)
    ensures ValidCredentials(username, name, password, email) <==>
      && username.Some? && !Blank(username.value)
      && name.Some? && !Blank(name.value)
      && password.Some? && !Blank(password.value)
      && email.Some? && !Blank(email.value)
  {
  }

  /** findByUsername(username).isPresent(). */
  predicate UsernameTaken(s: Store, username: string)
  {
    exists k :: k in s && s[k].username == username
  }

  /** findByUsername(username) finds a row whose id is not `id`. */
  predicate UsernameHeldByOther(s: Store, username: string, id: int)
  {
    exists k :: k in s && k != id && s[k].username == username
  }

  /** findByName(name) finds a row whose id is not `id`. */
  predicate NameHeldByOther(s: Store, name: string, id: int)
  {
    exists k :: k in s && k != id && s[k].name == name
  }

  /** No two rows share a username. */
  ghost predicate UniqueUsernames(s: Store)
  {
    forall j, k :: j in s && k in s && s[j].username == s[k].username ==> j == k
  }

  /** Writing row `id` keeps usernames unique when no other row holds the written username. */
  lemma WriteKeepsUnique(s: Store, id: int, u: User)
    requires !UsernameHeldByOther(s, u.username, id)
    ensures UniqueUsernames(s) ==> UniqueUsernames(s[id := u])
  {
    var t := s[id := u];
    if UniqueUsernames(s) {
      forall j, k | j in t && k in t && t[j].username == t[k].username
        ensures j == k
      {
        if j != id && k != id {
          assert s[j].username == s[k].username;
        }
      }
    }
  }
}
