/**
 * The tournament-registration transitions of UserServiceImpl. Each sets the
 * (status, flag) pair of one row whatever it was before; none checks the
 * current status.
 */
module Registration {
  import opened Wrappers
  import opened Users

  /** The row keeps every column except the two registration columns. */
  predicate SameAccount(u: User, v: User)
  {
    u.username == v.username && u.name == v.name && u.password == v.password
    && u.email == v.email && u.userType == v.userType
  }

  /** quitTournamentUser: (NONE, false). */
  ghost function QuitTournament(s: Store, id: int): (o: Outcome<User>)
    ensures id !in s <==> o == Outcome(s, Err(NoSuchElement))
    ensures id in s ==>
      && o.result.Ok?
      && o.store == s[id := o.result.value]
      && SameAccount(o.result.value, s[id])
      && o.result.value.tournamentRegistrationStatus == NONE
      && !o.result.value.isRegisteredInTournament
  {
    if id !in s then Outcome(s, Err(NoSuchElement))
    else
      var user := s[id].(isRegisteredInTournament := false, tournamentRegistrationStatus := NONE);
      Outcome(s[id := user], Ok(user))
  }

  /**
   * requestTournamentRegistration: (PENDING, false) for a player; any other
   * role gets its row saved back as it was.
   */
  ghost function RequestRegistration(s: Store, id: int): (o: Outcome<User>)
    ensures id !in s <==> o == Outcome(s, Err(NoSuchElement))
    ensures id in s && s[id].userType != PLAYER ==> o == Outcome(s, Ok(s[id]))
    ensures id in s && s[id].userType == PLAYER ==>
      && o.result.Ok?
      && o.store == s[id := o.result.value]
      && SameAccount(o.result.value, s[id])
      && o.result.value.tournamentRegistrationStatus == PENDING
      && !o.result.value.isRegisteredInTournament
  {
    if id !in s then Outcome(s, Err(NoSuchElement))
    else if s[id].userType == PLAYER then
      var user := s[id].(tournamentRegistrationStatus := PENDING, isRegisteredInTournament := false);
      Outcome(s[id := user], Ok(user))
    else
      Outcome(s, Ok(s[id]))
  }

  /** acceptTournamentRegistration: (ACCEPTED, true). */
  ghost function AcceptRegistration(s: Store, id: int): (o: Outcome<User>)
    ensures id !in s <==> o == Outcome(s, Err(NoSuchElement))
    ensures id in s ==>
      && o.result.Ok?
      && o.store == s[id := o.result.value]
      && SameAccount(o.result.value, s[id])
      && o.result.value.tournamentRegistrationStatus == ACCEPTED
      && o.result.value.isRegisteredInTournament
  {
    if id !in s then Outcome(s, Err(NoSuchElement))
    else
      var user := s[id].(isRegisteredInTournament := true, tournamentRegistrationStatus := ACCEPTED);
      Outcome(s[id := user], Ok(user))
  }

  /** rejectTournamentRegistration: (REJECTED, false). */
  ghost function RejectRegistration(s: Store, id: int): (o: Outcome<User>)
    ensures id !in s <==> o == Outcome(s, Err(NoSuchElement))
    ensures id in s ==>
      && o.result.Ok?
      && o.store == s[id := o.result.value]
      && SameAccount(o.result.value, s[id])
      && o.result.value.tournamentRegistrationStatus == REJECTED
      && !o.result.value.isRegisteredInTournament
  {
    if id !in s then Outcome(s, Err(NoSuchElement))
    else
      var user := s[id].(isRegisteredInTournament := false, tournamentRegistrationStatus := REJECTED);
      Outcome(s[id := user], Ok(user))
  }

  /** None of the transitions touches a username, so uniqueness survives each of them. */
  lemma TransitionsKeepUnique(s: Store, id: int)
    requires UniqueUsernames(s)
    ensures UniqueUsernames(QuitTournament(s, id).store)
    ensures UniqueUsernames(RequestRegistration(s, id).store)
    ensures UniqueUsernames(AcceptRegistration(s, id).store)
    ensures UniqueUsernames(RejectRegistration(s, id).store)
  {
    if id in s {
      assert !UsernameHeldByOther(s, s[id].username, id);
      WriteKeepsUnique(s, id, QuitTournament(s, id).result.value);
      WriteKeepsUnique(s, id, RequestRegistration(s, id).result.value);
      WriteKeepsUnique(s, id, AcceptRegistration(s, id).result.value);
      WriteKeepsUnique(s, id, RejectRegistration(s, id).result.value);
    }
  }

  /** Quitting twice is quitting once. */
  lemma QuitIdempotent(s: Store, id: int)
    ensures QuitTournament(QuitTournament(s, id).store, id) == QuitTournament(s, id)
  {
    if id in s {
      var o := QuitTournament(s, id);
      assert o.store[id := o.result.value] == o.store;
    }
  }

  /**
   * The full workflow for a player: request, then accept or reject, then
   * quit. Every step lands on its (status, flag) pair, and at the end the row
   * is its old self with (NONE, false).
   */
  lemma PlayerWorkflow(s: Store, id: int, accept: bool)
    requires id in s && s[id].userType == PLAYER
    ensures var requested := RequestRegistration(s, id).store;
      var decided := if accept then AcceptRegistration(requested, id).store else RejectRegistration(requested, id).store;
      var quit := QuitTournament(decided, id).store;
      && requested[id].tournamentRegistrationStatus == PENDING && !requested[id].isRegisteredInTournament
      && decided[id].tournamentRegistrationStatus == (if accept then ACCEPTED else REJECTED)
      && decided[id].isRegisteredInTournament == accept
      && quit == s[id := s[id].(isRegisteredInTournament := false, tournamentRegistrationStatus := NONE)]
  {
    var requested := RequestRegistration(s, id).store;
    var decided := if accept then AcceptRegistration(requested, id).store else RejectRegistration(requested, id).store;
    assert decided == s[id := decided[id]];
  }
}
