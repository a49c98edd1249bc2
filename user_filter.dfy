/**
 * filterUsers: the players the repository lists, narrowed by an optional
 * name, an optional username and an optional competing flag, applied one
 * after the other as the source's stream filters are.
 */
module UserFilter {
  import opened Wrappers
  import opened JavaText
  import opened Streams
  import opened Users

  /** A text filter is applied only when it is non-null and non-empty. */
  predicate Active(f: JString)
  {
    f.Some? && f.value != []
  }

  /** Case-insensitive containment, as toLowerCase().contains(f.toLowerCase()). */
  predicate Mentions(field: string, needle: string)
  {
    Contains(Lower(field), Lower(needle))
  }

  /** The conjunction of every filter supplied; an absent filter accepts everyone. */
  predicate Selected(u: User, name: JString, username: JString, isCompeting: Option<bool>)
  {
    && (Active(name) ==> Mentions(u.name, name.value))
    && (Active(username) ==> Mentions(u.username, username.value))
    && (isCompeting.Some? ==> u.isRegisteredInTournament == isCompeting.value)
  }

  /** The conjunction as a predicate value, to hand to Filter. */
  function Keep(name: JString, username: JString, isCompeting: Option<bool>): User -> bool
  {
    (u: User) => Selected(u, name, username, isCompeting)
  }

  /** The three stages of the chain, as the lambdas the source passes to filter. */
  function NameStage(needle: string): User -> bool
  {
    (u: User) => Mentions(u.name, needle)
  }

  function UsernameStage(needle: string): User -> bool
  {
    (u: User) => Mentions(u.username, needle)
  }

  function CompetingStage(flag: bool): User -> bool
  {
    (u: User) => u.isRegisteredInTournament == flag
  }

  /** The source's filter chain over the player list, stage by stage; a stage whose filter is absent is skipped. */
  function FilterUsers(players: seq<User>, name: JString, username: JString, isCompeting: Option<bool>): seq<User>
  {
    var byName := if Active(name) then Filter(players, NameStage(name.value)) else players;
    var byUsername := if Active(username) then Filter(byName, UsernameStage(username.value)) else byName;
    if isCompeting.Some? then Filter(byUsername, CompetingStage(isCompeting.value)) else byUsername
  }

  /** Each stage, skipped or not, as a filter that accepts everyone when skipped. */
  function ByName(name: JString): User -> bool
  {
    (u: User) => !Active(name) || Mentions(u.name, name.value)
  }

  function ByUsername(username: JString): User -> bool
  {
    (u: User) => !Active(username) || Mentions(u.username, username.value)
  }

  function ByCompeting(isCompeting: Option<bool>): User -> bool
  {
    (u: User) => isCompeting.None? || u.isRegisteredInTournament == isCompeting.value
  }

  lemma NameStageIsFilter(s: seq<User>, name: JString)
    ensures (if Active(name) then Filter(s, NameStage(name.value)) else s) == Filter(s, ByName(name))
  {
    if Active(name) {
      OptionalFilter(s, true, NameStage(name.value), ByName(name));
    } else {
      FilterKeepsAll(s, ByName(name));
    }
  }

  lemma UsernameStageIsFilter(s: seq<User>, username: JString)
    ensures (if Active(username) then Filter(s, UsernameStage(username.value)) else s) == Filter(s, ByUsername(username))
  {
    if Active(username) {
      OptionalFilter(s, true, UsernameStage(username.value), ByUsername(username));
    } else {
      FilterKeepsAll(s, ByUsername(username));
    }
  }

  lemma CompetingStageIsFilter(s: seq<User>, isCompeting: Option<bool>)
    ensures (if isCompeting.Some? then Filter(s, CompetingStage(isCompeting.value)) else s) == Filter(s, ByCompeting(isCompeting))
  {
    if isCompeting.Some? {
      OptionalFilter(s, true, CompetingStage(isCompeting.value), ByCompeting(isCompeting));
    } else {
      FilterKeepsAll(s, ByCompeting(isCompeting));
    }
  }

  /** The chain, with its skipped stages written as filters that accept everyone. */
  lemma ChainOfStages(players: seq<User>, name: JString, username: JString, isCompeting: Option<bool>)
    ensures FilterUsers(players, name, username, isCompeting)
         == Filter(Filter(Filter(players, ByName(name)), ByUsername(username)), ByCompeting(isCompeting))
  {
    var a := Filter(players, ByName(name));
    NameStageIsFilter(players, name);
    UsernameStageIsFilter(a, username);
    CompetingStageIsFilter(Filter(a, ByUsername(username)), isCompeting);
  }

  /** The name and username stages together. */
  function FirstTwo(name: JString, username: JString): User -> bool
  {
    (u: User) => ByName(name)(u) && ByUsername(username)(u)
  }

  lemma FirstTwoIsBoth(name: JString, username: JString)
    ensures forall u: User :: FirstTwo(name, username)(u) == (ByName(name)(u) && ByUsername(username)(u))
  {
  }

  lemma KeepIsAllThree(name: JString, username: JString, isCompeting: Option<bool>)
    ensures forall u: User :: Keep(name, username, isCompeting)(u) == (FirstTwo(name, username)(u) && ByCompeting(isCompeting)(u))
  {
    forall u: User ensures Keep(name, username, isCompeting)(u) == (FirstTwo(name, username)(u) && ByCompeting(isCompeting)(u)) {
      assert Keep(name, username, isCompeting)(u) == Selected(u, name, username, isCompeting);
      assert FirstTwo(name, username)(u) == (ByName(name)(u) && ByUsername(username)(u));
      assert ByName(name)(u) == (!Active(name) || Mentions(u.name, name.value));
      assert ByUsername(username)(u) == (!Active(username) || Mentions(u.username, username.value));
      assert ByCompeting(isCompeting)(u) == (isCompeting.None? || u.isRegisteredInTournament == isCompeting.value);
    }
  }

  /** The three stages in a row are one filter by their conjunction. */
  lemma StagesAreConjunction(players: seq<User>, name: JString, username: JString, isCompeting: Option<bool>)
    ensures Filter(Filter(Filter(players, ByName(name)), ByUsername(username)), ByCompeting(isCompeting))
         == Filter(players, Keep(name, username, isCompeting))
  {
    FirstTwoIsBoth(name, username);
    FilterTwice(players, ByName(name), ByUsername(username), FirstTwo(name, username));
    KeepIsAllThree(name, username, isCompeting);
    FilterTwice(players, FirstTwo(name, username), ByCompeting(isCompeting), Keep(name, username, isCompeting));
  }

  /**
   * The chain is a single filter by the conjunction of the supplied filters,
   * so the result keeps the list's order.
   */
  lemma FilterUsersIsOneFilter(players: seq<User>, name: JString, username: JString, isCompeting: Option<bool>)
    ensures FilterUsers(players, name, username, isCompeting) == Filter(players, Keep(name, username, isCompeting))
  {
    ChainOfStages(players, name, username, isCompeting);
    StagesAreConjunction(players, name, username, isCompeting);
  }

  /**
   * filterUsers keeps a listed player exactly when it meets every supplied
   * filter, and with no filter supplied returns the whole list.
   */
  lemma FilterUsersSelects(players: seq<User>, name: JString, username: JString, isCompeting: Option<bool>)
    ensures forall i :: 0 <= i < |players| ==>
      (players[i] in FilterUsers(players, name, username, isCompeting) <==> Selected(players[i], name, username, isCompeting))
    ensures forall u :: u in FilterUsers(players, name, username, isCompeting) ==> u in players
    ensures !Active(name) && !Active(username) && isCompeting.None? ==> FilterUsers(players, name, username, isCompeting) == players
  {
    FilterUsersIsOneFilter(players, name, username, isCompeting);
    var r := FilterUsers(players, name, username, isCompeting);
    forall u | u in r ensures u in players && Selected(u, name, username, isCompeting) {
      var i :| 0 <= i < |r| && r[i] == u;
      assert Keep(name, username, isCompeting)(r[i]);
    }
  }
}
