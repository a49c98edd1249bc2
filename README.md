# User table of the tennis tournament service

This project models the user table of the tennis tournament backend and
`UserServiceImpl`, the service that runs the user lifecycle: sign-up,
sign-in, credential update, administrative add, update and delete, the
player search, and the tournament-registration transitions.

The repository's table is a `map<int, User>` from id to row. A row holds the
username, name, password hash, email, user type, the
`isRegisteredInTournament` flag and the `tournamentRegistrationStatus`
string. Java's thrown exceptions become an `Error` value:

- `NoSuchElement` stands for `NoSuchElementException`.
- `IllegalArgument(reason)` stands for `IllegalArgumentException`. The reason
  says which message was thrown.
- `DataIntegrityViolation` stands for `DataIntegrityViolationException`.

The model has three layers:

- `Lifecycle` and `Registration` give each operation as a ghost function from
  the table before the call to an `Outcome`: the table after the call and
  what the call returned or threw. The contracts of these functions state
  what the operation guarantees, failure by failure, in the source's order of
  checks. Lemmas beside them relate several calls to each other.
- `Service.UserServiceImpl` is the service object. Its fields are the table
  (`users`), the next id a save assigns (`nextId`) and the password encoder.
  Each method fetches a row, runs the checks, changes the row field by field
  and writes it back, as the Java code does. Its postcondition equates
  `Outcome(users, r)` with the matching function applied to `old(users)`.
  `Valid()` is the invariant every method keeps: usernames are unique and
  every id is below `nextId`.
- `JavaText` (trim, ASCII toLowerCase, contains), `Streams` (the order-keeping
  `filter`) and `UserFilter` (the `filterUsers` chain) are pure helpers.

The password encoder is a pair of function values: `encode(raw, salt)` and
`matches(raw, hash)`. The salt parameter stands for bcrypt's randomness.
Nothing is assumed about the encoder except in the lemmas that need it. Those
lemmas require `Sound(enc)`: every raw password matches each of its own
encodings.

What the code does that a reader might not expect:

- Sign-up takes role, flag and status from the mapper, whose code is not part
  of this model. The model takes them as a parameter (`MappedDefaults`).
- Name uniqueness is checked only on the two update paths. Sign-up and
  administrative add check the username alone.
- A username conflict on create throws `DataIntegrityViolationException`. On
  update, username and name conflicts throw `IllegalArgumentException`.
- Accept and reject notify the user before the row is saved.
  `requestTournamentRegistration` also notifies before saving.
- `updateUserCredentials` validates the email but never writes it.
- `findRegisteredPlayers` returns every row whose flag is set, whatever its
  role.

## Model

| member | source | states |
|---|---|---|
| `JavaText.Trim` | tennis_api/src/main/java/org/example/tennis_api/service/UserServiceImpl.java:38-41 | `trim()` of a string is empty exactly when every character is at or below U+0020 |
| `JavaText.TrimIsSlice` | tennis_api/src/main/java/org/example/tennis_api/service/UserServiceImpl.java:38-41 | what `trim()` keeps is a contiguous slice whose ends are above U+0020; everything cut off is at or below U+0020 |
| `JavaText.SkipLeading` | tennis_api/src/main/java/org/example/tennis_api/service/UserServiceImpl.java:38-41 | the scan for trim's start stops at the first character above U+0020 and passes only characters at or below it |
| `JavaText.SkipTrailing` | tennis_api/src/main/java/org/example/tennis_api/service/UserServiceImpl.java:38-41 | the scan for trim's end stops after the last character above U+0020 and drops only characters at or below it |
| `JavaText.LowerChars` | tennis_api/src/main/java/org/example/tennis_api/service/UserServiceImpl.java:194 | lowering leaves no upper-case ASCII letter, keeps every other character and maps each capital to its lower-case letter |
| `JavaText.ContainsIff` | tennis_api/src/main/java/org/example/tennis_api/service/UserServiceImpl.java:194 | `contains` is true exactly when the needle occurs at some offset of the haystack |
| `Users.ValidCredentialsIff` | tennis_api/src/main/java/org/example/tennis_api/service/UserServiceImpl.java:37-44 | validation passes exactly when username, name, password and email are all non-null and none is made only of characters at or below U+0020 |
| `Users.WriteKeepsUnique` | tennis_api/src/main/java/org/example/tennis_api/service/UserServiceImpl.java:76-79 | writing a row whose username no other row holds keeps usernames unique |
| `Lifecycle.RegisterUser` | tennis_api/src/main/java/org/example/tennis_api/service/UserServiceImpl.java:47-55 | blank field: IllegalArgument and table unchanged; taken username: DataIntegrityViolation and table unchanged; otherwise exactly one row added under the fresh id with the given username, name and email, the encoded password and the mapper's role and registration columns; no existing row changes; name not checked; usernames stay unique |
| `Lifecycle.AddUser` | tennis_api/src/main/java/org/example/tennis_api/service/UserServiceImpl.java:144-152 | same checks and errors as sign-up; on success one new row under the fresh id holding every column from the request with the password encoded; nothing else changes; usernames stay unique |
| `Lifecycle.LoginUser` | tennis_api/src/main/java/org/example/tennis_api/service/UserServiceImpl.java:58-65 | unknown username: NoSuchElement; the password does not match the stored hash: IllegalArgument(InvalidPassword); otherwise the stored row |
| `Lifecycle.UpdateUserCredentials` | tennis_api/src/main/java/org/example/tennis_api/service/UserServiceImpl.java:68-90 | the failures in order: missing id, blank field, old password mismatch, username held by another id, name held by another id; each leaves the table unchanged; on success only that row's username, name and password hash change, and email, role, flag and status are kept; usernames stay unique |
| `Lifecycle.UpdateUser` | tennis_api/src/main/java/org/example/tennis_api/service/UserServiceImpl.java:155-178 | the failures in order: missing id, blank field, username held by another id, name held by another id; each leaves the table unchanged; on success all seven columns of that row come from the request, with the password encoded, and no other row changes |
| `Lifecycle.DeleteUser` | tennis_api/src/main/java/org/example/tennis_api/service/UserServiceImpl.java:181-186 | absent id: NoSuchElement and table unchanged; otherwise exactly that id is removed and every other row is kept |
| `Lifecycle.RegisteredUserCanLogIn` | tennis_api/src/main/java/org/example/tennis_api/service/UserServiceImpl.java:47-65 | after a successful sign-up, signing in with the same username and raw password returns the new row |
| `Lifecycle.DeleteUndoesRegister` | tennis_api/src/main/java/org/example/tennis_api/service/UserServiceImpl.java:47-55 | deleting the row a successful sign-up created gives back the table as it was |
| `Lifecycle.UpdatedCredentialsLogIn` | tennis_api/src/main/java/org/example/tennis_api/service/UserServiceImpl.java:68-90 | after a successful credential update, the new username and new raw password sign in to the updated row |
| `Lifecycle.RefusedUpdateKeepsLogin` | tennis_api/src/main/java/org/example/tennis_api/service/UserServiceImpl.java:76-79 | a credential update refused for a username held by another id leaves the row signing in with its old username and password |
| `Lifecycle.SharedNameBlocksUpdate` | tennis_api/src/main/java/org/example/tennis_api/service/UserServiceImpl.java:165-168 | in the model, where a name lookup reports any other row holding the name: when two rows share a name (which sign-up allows), an administrative update of one of them that keeps the name is refused with NameInUse; what the source does in that case is listed under Left out |
| `Registration.QuitTournament` | tennis_api/src/main/java/org/example/tennis_api/service/UserServiceImpl.java:113-119 | missing id: NoSuchElement; otherwise that row becomes (NONE, false) whatever its status was; every other column and row is kept |
| `Registration.RequestRegistration` | tennis_api/src/main/java/org/example/tennis_api/service/UserServiceImpl.java:122-136 | missing id: NoSuchElement; a player's row becomes (PENDING, false); for any other role the table is unchanged and the row is returned |
| `Registration.AcceptRegistration` | tennis_api/src/main/java/org/example/tennis_api/service/UserServiceImpl.java:214-224 | missing id: NoSuchElement; otherwise (ACCEPTED, true) whatever the prior status; every other column and row is kept |
| `Registration.RejectRegistration` | tennis_api/src/main/java/org/example/tennis_api/service/UserServiceImpl.java:227-238 | missing id: NoSuchElement; otherwise (REJECTED, false) whatever the prior status; every other column and row is kept |
| `Registration.TransitionsKeepUnique` | tennis_api/src/main/java/org/example/tennis_api/service/UserServiceImpl.java:113-136 | none of the four transitions can break username uniqueness |
| `Registration.QuitIdempotent` | tennis_api/src/main/java/org/example/tennis_api/service/UserServiceImpl.java:113-119 | quitting twice is the same as quitting once |
| `Registration.PlayerWorkflow` | tennis_api/src/main/java/org/example/tennis_api/service/UserServiceImpl.java:122-136 | for a player, request gives PENDING; accept gives (ACCEPTED, true) and reject gives (REJECTED, false); a final quit gives back the original row with (NONE, false) |
| `Streams.Filter` | tennis_api/src/main/java/org/example/tennis_api/service/UserServiceImpl.java:193-195 | a stream filter keeps exactly the list elements satisfying the predicate and never grows the list |
| `Streams.FilterConcat` | tennis_api/src/main/java/org/example/tennis_api/service/UserServiceImpl.java:193-195 | filtering distributes over concatenation, so the list's order is kept |
| `Streams.FilterTwice` | tennis_api/src/main/java/org/example/tennis_api/service/UserServiceImpl.java:192-208 | two filters in a row equal one filter by the conjunction |
| `UserFilter.FilterUsersIsOneFilter` | tennis_api/src/main/java/org/example/tennis_api/service/UserServiceImpl.java:189-211 | the chain of optional name, username and competing filters equals one order-keeping filter by the conjunction of the supplied ones |
| `UserFilter.FilterUsersSelects` | tennis_api/src/main/java/org/example/tennis_api/service/UserServiceImpl.java:189-211 | a listed player is kept exactly when it meets every supplied filter (case-insensitive substring on name and username, exact flag); with no filter supplied the whole list comes back |
| `Service.FindBy` | tennis_api/src/main/java/org/example/tennis_api/service/UserServiceImpl.java:190 | a repository query returns rows of the table that meet the condition, and every such row |
| `Service.UserServiceImpl.RegisterUser` | tennis_api/src/main/java/org/example/tennis_api/service/UserServiceImpl.java:47-55 | the table after the call and the result are `Lifecycle.RegisterUser` with the id `nextId`; the invariant is kept and `nextId` advances only on success |
| `Service.UserServiceImpl.LoginUser` | tennis_api/src/main/java/org/example/tennis_api/service/UserServiceImpl.java:58-65 | returns `Lifecycle.LoginUser` of the current table and changes nothing |
| `Service.UserServiceImpl.UpdateUserCredentials` | tennis_api/src/main/java/org/example/tennis_api/service/UserServiceImpl.java:68-90 | table and result are `Lifecycle.UpdateUserCredentials` of the old table; the invariant is kept |
| `Service.UserServiceImpl.AddUser` | tennis_api/src/main/java/org/example/tennis_api/service/UserServiceImpl.java:144-152 | table and result are `Lifecycle.AddUser` with the id `nextId`; the invariant is kept |
| `Service.UserServiceImpl.UpdateUser` | tennis_api/src/main/java/org/example/tennis_api/service/UserServiceImpl.java:155-178 | table and result are `Lifecycle.UpdateUser` of the old table; the invariant is kept |
| `Service.UserServiceImpl.DeleteUser` | tennis_api/src/main/java/org/example/tennis_api/service/UserServiceImpl.java:181-186 | table and result are `Lifecycle.DeleteUser` of the old table; the invariant is kept |
| `Service.UserServiceImpl.QuitTournamentUser` | tennis_api/src/main/java/org/example/tennis_api/service/UserServiceImpl.java:113-119 | table and result are `Registration.QuitTournament` of the old table |
| `Service.UserServiceImpl.RequestTournamentRegistration` | tennis_api/src/main/java/org/example/tennis_api/service/UserServiceImpl.java:122-136 | table and result are `Registration.RequestRegistration` of the old table |
| `Service.UserServiceImpl.AcceptTournamentRegistration` | tennis_api/src/main/java/org/example/tennis_api/service/UserServiceImpl.java:214-224 | table and result are `Registration.AcceptRegistration` of the old table |
| `Service.UserServiceImpl.RejectTournamentRegistration` | tennis_api/src/main/java/org/example/tennis_api/service/UserServiceImpl.java:227-238 | table and result are `Registration.RejectRegistration` of the old table |
| `Service.UserServiceImpl.FilterUsers` | tennis_api/src/main/java/org/example/tennis_api/service/UserServiceImpl.java:189-211 | the result is the players in the repository's order that meet every supplied filter, each is a row of the table, and no such row is missing |
| `Service.UserServiceImpl.FindRegisteredPlayers` | tennis_api/src/main/java/org/example/tennis_api/service/UserServiceImpl.java:107-110 | exactly the rows whose registration flag is set, whatever their role |
| `Service.UserServiceImpl.FindUserByStatus` | tennis_api/src/main/java/org/example/tennis_api/service/UserServiceImpl.java:240-243 | exactly the rows with the given registration status |

## Left out

- Email notifications (UserServiceImpl.java:130-133, 220-221, 233-234) are outbound I/O and are not modelled. Each is sent before the row is saved, so a delivery failure in the source aborts the call before the write. In the model the write always happens once the checks pass.
- Real password hashing is not modelled. The encoder is a pair of uninterpreted function values. Its randomness is the `salt` parameter. That a password matches its own encoding is assumed only as the `Sound` precondition of the lemmas that use it.
- registerUser and addUser replace the password of the caller's DTO with its encoding (UserServiceImpl.java:52, 149). The model takes requests by value and does not return the changed DTO, so this change to the caller's object is not captured.
- UserMapper is not part of this model. Sign-up is assumed to copy username, name, email and the encoded password into the row. Role, flag and status come from the `MappedDefaults` parameter. Administrative add takes every column from the request.
- Id generation is not part of this model. The `nextId` counter stands for whatever fresh id the repository's save assigns. The specification functions take that id as a parameter and require only that it is fresh. A UserDTO that carries an existing id is treated as a new row.
- `findByName` finding several rows is not modelled, although sign-up allows duplicate names. The model reports a name conflict whenever some other id holds the name. In the source, an `Optional`-returning query that matches several rows would throw the repository's own exception instead of the `IllegalArgumentException` at UserServiceImpl.java:82-83 and :166-167. `Lifecycle.SharedNameBlocksUpdate` therefore states the model's reading, not the source's behaviour.
- `findByUsername` is modelled under the invariant that usernames are unique. Sign-in needs that invariant to name a single row.
- Null is modelled for the four validated fields and for the three `filterUsers` parameters (`JString` and `Option<bool>`). The sign-in username and password, the old password, and the role, flag and status columns are non-null strings and booleans in the model. In the source, a null sign-in username matches no row and ends in `NoSuchElementException` (UserServiceImpl.java:59-60). A null password or old password goes to the encoder, whose behaviour is not modelled. A null role, flag or status goes to the mapper or to the database.
- Case folding uses ASCII only. Java's `toLowerCase` follows the locale and Unicode.
- The repository's result order is the `listing` parameter. It lists every id once.
- `findUserById`, `findUserByUsername`, `findUserByRole` and `findAllUsers` (UserServiceImpl.java:92-105, 138-141) pass straight through to the repository and are not modelled.
- Spring wiring, transactions and concurrency are not modelled. Every call runs alone and to completion.
- MatchService.java is an interface without bodies, and its export writes to a stream. UserSignUpDTO.java is a data holder; only its fields are used, in `SignUpDto`.
