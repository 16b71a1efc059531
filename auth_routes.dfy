/**
 * The account router of `backend/routes/auth.js`: registration and login by
 * lower-cased email, the push-token overwrite, and the five-step account
 * deletion with its counts. Password hashing and comparison are parameters;
 * issuing the session token is not part of this model.
 */
module AuthRoutes {
  import opened Wrappers
  import opened JsText
  import opened RoutesDb

  const REGISTRATION_FAILED := Failure(500, "Registration failed")
  const EMAIL_TAKEN := Failure(400, "User already exists with this email")
  const LOGIN_FAILED := Failure(500, "Login failed")
  const BAD_CREDENTIALS := Failure(401, "Invalid email or password")
  const USER_NOT_FOUND := Failure(404, "User not found")

  /**
   * `POST /register`. An absent email makes `toLowerCase` throw (500); an email whose
   * lower-case form is already stored is refused (400); otherwise a user without
   * friends or push token is stored under the lower-cased email.
   */
  method Register(db: Db, name: string, email: Option<string>, password: string, hash: string -> string)
    returns (r: Result<UserId, Failure>)
    requires db.Valid()
    modifies db
    ensures db.Valid()
    ensures old(db.NoDangling()) ==> db.NoDangling()
    ensures db.requests == old(db.requests) && db.goals == old(db.goals) && db.outbox == old(db.outbox)
    ensures email.None? ==> r == Err(REGISTRATION_FAILED) && db.users == old(db.users)
    ensures email.Some? && UserByEmail(old(db.users), ToLower(email.value)).Some? ==>
              r == Err(EMAIL_TAKEN) && db.users == old(db.users)
    ensures email.Some? && UserByEmail(old(db.users), ToLower(email.value)).None? ==>
              && r == Ok(old(db.nextUserId))
              && r.value !in old(db.users)
              && db.users == old(db.users)[r.value := User(name, ToLower(email.value), hash(password), [], None)]
  {
    if email.None? {
      return Err(REGISTRATION_FAILED);
    }
    var lower := ToLower(email.value);
    if UserByEmail(db.users, lower).Some? {
      return Err(EMAIL_TAKEN);
    }
    ToLowerIdempotent(email.value);
    var id := db.nextUserId;
    db.users := db.users[id := User(name, lower, hash(password), [], None)];
    db.nextUserId := db.nextUserId + 1;
    r := Ok(id);
  }

  /**
   * `POST /login`: the user is looked up by lower-cased email, and an unknown email
   * and a wrong password get the same answer. `compare(password, hash)` is `comparePassword`.
   */
  function Login(users: map<UserId, User>, email: Option<string>, password: string, compare: (string, string) -> bool)
    : (r: Result<UserId, Failure>)
    ensures email.None? ==> r == Err(LOGIN_FAILED)
    ensures r.Ok? ==> r.value in users && users[r.value].email == ToLower(email.value)
                      && compare(password, users[r.value].passwordHash)
    ensures r.Err? && email.Some? ==> r == Err(BAD_CREDENTIALS)
    ensures email.Some? && r.Err? <==>
              email.Some? && (UserByEmail(users, ToLower(email.value)).None?
                              || !compare(password, users[UserByEmail(users, ToLower(email.value)).value].passwordHash))
  {
    if email.None? then Err(LOGIN_FAILED)
    else
      match UserByEmail(users, ToLower(email.value))
      case None => Err(BAD_CREDENTIALS)
      case Some(u) => if compare(password, users[u].passwordHash) then Ok(u) else Err(BAD_CREDENTIALS)
  }

  /** The answer does not tell an unknown email from a wrong password. */
  lemma LoginHidesWhichCheckFailed(users: map<UserId, User>, unknown: string, known: string, password: string,
                                   compare: (string, string) -> bool)
    requires forall u :: u in users ==> users[u].email != ToLower(unknown)
    requires UserByEmail(users, ToLower(known)).Some?
    requires !compare(password, users[UserByEmail(users, ToLower(known)).value].passwordHash)
    ensures Login(users, Some(unknown), password, compare) == Login(users, Some(known), password, compare)
  {
  }

  /**
   * Registering and then logging in with the same email in any letter case and the same
   * password finds the new user, as long as comparing a password with its own hash succeeds.
   */
  lemma LoginAfterRegister(users: map<UserId, User>, id: UserId, name: string, email: string, other: string,
                           password: string, hash: string -> string, compare: (string, string) -> bool)
    requires forall u :: u in users ==> u < id
    requires UserByEmail(users, ToLower(email)).None?
    requires ToLower(other) == ToLower(email)
    requires compare(password, hash(password))
    ensures Login(users[id := User(name, ToLower(email), hash(password), [], None)], Some(other), password, compare) == Ok(id)
  {
    var after := users[id := User(name, ToLower(email), hash(password), [], None)];
    var found := UserByEmail(after, ToLower(other));
    assert after[id].email == ToLower(other);
    assert found.Some?;
  }

  /** `POST /push-token`: the caller's single push token is overwritten; a caller without a record changes nothing. */
  method UpdatePushToken(db: Db, caller: UserId, pushToken: Option<string>) returns (message: string)
    requires db.Valid()
    modifies db
    ensures db.Valid()
    ensures old(db.NoDangling()) ==> db.NoDangling()
    ensures message == "Push token updated successfully"
    ensures caller in old(db.users) ==> db.users == old(db.users)[caller := old(db.users[caller]).(pushToken := pushToken)]
    ensures caller !in old(db.users) ==> db.users == old(db.users)
    ensures db.requests == old(db.requests) && db.goals == old(db.goals) && db.outbox == old(db.outbox)
  {
    if caller in db.users {
      db.users := db.users[caller := db.users[caller].(pushToken := pushToken)];
    }
    message := "Push token updated successfully";
  }

  // ---------------------------------------------------------------------
  // Account deletion

  /** The four counts the deletion reports. */
  datatype DeletionCounts = DeletionCounts(goals: nat, sharedGoals: nat, friendConnections: nat, friendRequests: nat)

  /** Step 1, `Goal.deleteMany({ userId })`: the goals that survive. */
  function NotOwnedBy(goals: seq<RGoal>, u: UserId): (r: seq<RGoal>)
    ensures forall g :: g in r <==> g in goals && g.userId != u
    ensures |r| == |goals| - CountOwned(goals, u)
  {
    if goals == [] then []
    else
      var front := goals[..|goals| - 1];
      var last := goals[|goals| - 1];
      assert goals == front + [last];
      NotOwnedBy(front, u) + (if last.userId != u then [last] else [])
  }

  /** Deleting goals keeps the survivors valid. */
  lemma {:induction false} NotOwnedByValid(goals: seq<RGoal>, u: UserId, next: GoalId)
    requires ValidGoals(goals, next)
    ensures ValidGoals(NotOwnedBy(goals, u), next)
  {
    if goals != [] {
      var front := goals[..|goals| - 1];
      var last := goals[|goals| - 1];
      LastGoalFresh(goals, next);
      NotOwnedByValid(front, u, next);
      var rest := NotOwnedBy(front, u);
      assert NotOwnedBy(goals, u) == rest + (if last.userId != u then [last] else []);
      if last.userId != u {
        assert forall g :: g in rest ==> g in front;
        AppendGoalValid(rest, last, next);
      } else {
        assert rest + [] == rest;
      }
    }
  }

  /** The goals before the last are valid, and the last goal's id is below the bound and new. */
  lemma LastGoalFresh(goals: seq<RGoal>, next: GoalId)
    requires goals != [] && ValidGoals(goals, next)
    ensures var front := goals[..|goals| - 1]; var last := goals[|goals| - 1];
      ValidGoals(front, next) && last.id < next && forall g :: g in front ==> g.id != last.id
  {
    var front := goals[..|goals| - 1];
    forall g | g in front ensures g.id != goals[|goals| - 1].id {
      var k :| 0 <= k < |front| && front[k] == g;
      assert goals[k] == g;
    }
  }

  /** Un-sharing changes no id. */
  lemma UnshareValid(goals: seq<RGoal>, u: UserId, next: GoalId)
    requires ValidGoals(goals, next)
    ensures ValidGoals(Unshare(goals, u), next)
  {
    var r := Unshare(goals, u);
    assert forall k :: 0 <= k < |goals| ==> r[k].id == goals[k].id;
  }

  /** Pulling a user from every friend list, and then removing that user, keeps the users valid. */
  lemma UnfriendValid(users: map<UserId, User>, u: UserId, next: UserId)
    requires ValidUsers(users, next)
    ensures ValidUsers(UnfriendEverywhere(users, u), next)
    ensures ValidUsers(UnfriendEverywhere(users, u) - {u}, next)
  {
    var r := UnfriendEverywhere(users, u);
    assert forall v :: v in r ==> r[v].email == users[v].email;
    assert forall v :: v in r ==> r[v].friends == Pull(users[v].friends, u);
  }

  /** The number of goals that list `u` among the users they are shared with. */
  function SharedCount(goals: seq<RGoal>, u: UserId): (n: nat)
    ensures n <= |goals|
  {
    if goals == [] then 0 else SharedCount(goals[..|goals| - 1], u) + (if u in goals[|goals| - 1].sharedWith then 1 else 0)
  }

  /** Step 2, `$pull` of `u` from every `sharedWith`. */
  function Unshare(goals: seq<RGoal>, u: UserId): (r: seq<RGoal>)
    ensures |r| == |goals|
    ensures forall k :: 0 <= k < |goals| ==>
      r[k] == goals[k].(sharedWith := r[k].sharedWith)
      && forall v :: v in r[k].sharedWith <==> v in goals[k].sharedWith && v != u
  {
    seq(|goals|, k requires 0 <= k < |goals| => goals[k].(sharedWith := Pull(goals[k].sharedWith, u)))
  }

  /** Step 3, `$pull` of `u` from every friend list. */
  function UnfriendEverywhere(users: map<UserId, User>, u: UserId): (r: map<UserId, User>)
    ensures r.Keys == users.Keys
    ensures forall v :: v in users ==> r[v] == users[v].(friends := r[v].friends)
                                        && forall f :: f in r[v].friends <==> f in users[v].friends && f != u
  {
    map v | v in users :: users[v].(friends := Pull(users[v].friends, u))
  }

  /** The users whose friend list holds `u`: `modifiedCount` of step 3. */
  function FriendConnections(users: map<UserId, User>, u: UserId): nat {
    |set v | v in users && u in users[v].friends|
  }

  /** The requests `selected` does not pick: what a `deleteMany` by that filter leaves. */
  function Without(rs: seq<FriendRequest>, selected: FriendRequest -> bool): (r: seq<FriendRequest>)
    ensures forall q :: q in r <==> q in rs && !selected(q)
    ensures |r| <= |rs|
  {
    if rs == [] then []
    else
      var front := rs[..|rs| - 1];
      var last := rs[|rs| - 1];
      assert rs == front + [last];
      Without(front, selected) + (if selected(last) then [] else [last])
  }

  /** Deleting requests keeps the survivors valid. */
  lemma {:induction false} WithoutValid(rs: seq<FriendRequest>, selected: FriendRequest -> bool, next: RequestId)
    requires ValidRequests(rs, next)
    ensures ValidRequests(Without(rs, selected), next)
  {
    if rs != [] {
      var front := rs[..|rs| - 1];
      var last := rs[|rs| - 1];
      LastRequestFresh(rs, next);
      WithoutValid(front, selected, next);
      var rest := Without(front, selected);
      assert Without(rs, selected) == rest + (if selected(last) then [] else [last]);
      if !selected(last) {
        assert forall q :: q in rest ==> q in front;
        AppendRequestValid(rest, last, next);
      } else {
        assert rest + [] == rest;
      }
    }
  }

  /** The requests before the last are valid, and the last request's id is below the bound and new. */
  lemma LastRequestFresh(rs: seq<FriendRequest>, next: RequestId)
    requires rs != [] && ValidRequests(rs, next)
    ensures var front := rs[..|rs| - 1]; var last := rs[|rs| - 1];
      ValidRequests(front, next) && last.id < next && forall q :: q in front ==> q.id != last.id
  {
    var front := rs[..|rs| - 1];
    forall q | q in front ensures q.id != rs[|rs| - 1].id {
      var k :| 0 <= k < |front| && front[k] == q;
      assert rs[k] == q;
    }
  }

  /** The step-4 filter as written: `$or: [{ from: userId }, { to: userId }]`. */
  predicate InvolvesAsWritten(q: FriendRequest, u: UserId) {
    q.from == Some(u) || q.to == Some(u)
  }

  /** The step-4 filter on the fields requests are created with: `sender` and `recipient`. */
  predicate Involves(q: FriendRequest, u: UserId) {
    q.sender == u || q.recipient == u
  }

  /** Step 1: deletes the goals `u` owns and reports how many there were. */
  method DeleteOwnedGoals(db: Db, u: UserId) returns (deleted: nat)
    requires db.Valid()
    modifies db
    ensures db.Valid()
    ensures db.goals == NotOwnedBy(old(db.goals), u) && deleted == CountOwned(old(db.goals), u)
    ensures db.users == old(db.users) && db.requests == old(db.requests) && db.outbox == old(db.outbox)
  {
    NotOwnedByValid(db.goals, u, db.nextGoalId);
    var survivors := NotOwnedBy(db.goals, u);
    deleted := |db.goals| - |survivors|;
    db.goals := survivors;
  }

  /** Step 2: takes `u` out of every `sharedWith` and reports how many goals listed `u`. */
  method UnshareGoals(db: Db, u: UserId) returns (modified: nat)
    requires db.Valid()
    modifies db
    ensures db.Valid()
    ensures db.goals == Unshare(old(db.goals), u) && modified == SharedCount(old(db.goals), u)
    ensures db.users == old(db.users) && db.requests == old(db.requests) && db.outbox == old(db.outbox)
  {
    UnshareValid(db.goals, u, db.nextGoalId);
    modified := SharedCount(db.goals, u);
    db.goals := Unshare(db.goals, u);
  }

  /** Step 3: takes `u` out of every friend list and reports how many lists held `u`. */
  method UnfriendUser(db: Db, u: UserId) returns (modified: nat)
    requires db.Valid()
    modifies db
    ensures db.Valid()
    ensures db.users == UnfriendEverywhere(old(db.users), u) && modified == FriendConnections(old(db.users), u)
    ensures db.goals == old(db.goals) && db.requests == old(db.requests) && db.outbox == old(db.outbox)
  {
    UnfriendValid(db.users, u, db.nextUserId);
    modified := FriendConnections(db.users, u);
    db.users := UnfriendEverywhere(db.users, u);
  }

  /** Step 4: deletes the requests `involves` selects and reports how many there were. */
  method DeleteRequests(db: Db, involves: FriendRequest -> bool) returns (deleted: nat)
    requires db.Valid()
    modifies db
    ensures db.Valid()
    ensures db.requests == Without(old(db.requests), involves)
    ensures deleted == |old(db.requests)| - |db.requests|
    ensures db.users == old(db.users) && db.goals == old(db.goals) && db.outbox == old(db.outbox)
  {
    WithoutValid(db.requests, involves, db.nextRequestId);
    var kept := Without(db.requests, involves);
    deleted := |db.requests| - |kept|;
    db.requests := kept;
  }

  /**
   * The five steps of `DELETE /account`, in order, with the request filter of step 4
   * given as `involves`. Steps 1 to 4 stay done when step 5 finds no user record.
   */
  method DeleteSteps(db: Db, u: UserId, involves: FriendRequest -> bool) returns (r: Result<DeletionCounts, Failure>)
    requires db.Valid()
    modifies db
    ensures db.Valid()
    ensures db.goals == Unshare(NotOwnedBy(old(db.goals), u), u)
    ensures db.requests == Without(old(db.requests), involves)
    ensures u in old(db.users) ==> db.users == UnfriendEverywhere(old(db.users), u) - {u}
    ensures u !in old(db.users) ==> db.users == UnfriendEverywhere(old(db.users), u)
    ensures db.outbox == old(db.outbox)
    ensures u !in old(db.users) ==> r == Err(USER_NOT_FOUND)
    ensures u in old(db.users) ==> r == Ok(DeletionCounts(
      CountOwned(old(db.goals), u),
      SharedCount(NotOwnedBy(old(db.goals), u), u),
      FriendConnections(old(db.users), u),
      |old(db.requests)| - |Without(old(db.requests), involves)|))
  {
    var goals := DeleteOwnedGoals(db, u);
    var sharedGoals := UnshareGoals(db, u);
    var friendConnections := UnfriendUser(db, u);
    var friendRequests := DeleteRequests(db, involves);
    if u !in db.users {
      return Err(USER_NOT_FOUND);
    }
    RemoveUserRecord(db, u);
    r := Ok(DeletionCounts(goals, sharedGoals, friendConnections, friendRequests));
  }

  /** Step 5, `User.findByIdAndDelete`: the user's record goes. */
  method RemoveUserRecord(db: Db, u: UserId)
    requires db.Valid()
    modifies db
    ensures db.Valid()
    ensures db.users == old(db.users) - {u}
    ensures db.goals == old(db.goals) && db.requests == old(db.requests) && db.outbox == old(db.outbox)
  {
    RemoveUserValid(db.users, u, db.nextUserId);
    db.users := db.users - {u};
  }

  /** Removing a record keeps the remaining users valid. */
  lemma RemoveUserValid(users: map<UserId, User>, u: UserId, next: UserId)
    requires ValidUsers(users, next)
    ensures ValidUsers(users - {u}, next)
  {
  }

  /** `DELETE /account` as written: step 4 selects requests by `from` and `to`. */
  method DeleteAccountAsWritten(db: Db, u: UserId) returns (r: Result<DeletionCounts, Failure>)
    requires db.Valid()
    modifies db
    ensures db.Valid()
    ensures db.goals == Unshare(NotOwnedBy(old(db.goals), u), u)
    ensures db.requests == Without(old(db.requests), (q: FriendRequest) => InvolvesAsWritten(q, u))
    ensures u in old(db.users) ==> db.users == UnfriendEverywhere(old(db.users), u) - {u}
    ensures u !in old(db.users) ==> db.users == UnfriendEverywhere(old(db.users), u)
    ensures db.outbox == old(db.outbox)
    ensures u !in old(db.users) ==> r == Err(USER_NOT_FOUND)
    ensures u in old(db.users) ==> r == Ok(DeletionCounts(
      CountOwned(old(db.goals), u),
      SharedCount(NotOwnedBy(old(db.goals), u), u),
      FriendConnections(old(db.users), u),
      |old(db.requests)| - |Without(old(db.requests), (q: FriendRequest) => InvolvesAsWritten(q, u))|))
  {
    r := DeleteSteps(db, u, (q: FriendRequest) => InvolvesAsWritten(q, u));
  }

  /** Requests made by `POST /request` have no `from` or `to`, so the filter as written deletes none of them. */
  lemma AsWrittenKeepsCreatedRequests(rs: seq<FriendRequest>, u: UserId)
    requires forall k :: 0 <= k < |rs| ==> rs[k].from.None? && rs[k].to.None?
    ensures Without(rs, (q: FriendRequest) => InvolvesAsWritten(q, u)) == rs
  {
    WithoutNoneSelected(rs, (q: FriendRequest) => InvolvesAsWritten(q, u));
  }

  /** A filter that selects no request keeps the list as it is. */
  lemma {:induction false} WithoutNoneSelected(rs: seq<FriendRequest>, selected: FriendRequest -> bool)
    requires forall k :: 0 <= k < |rs| ==> !selected(rs[k])
    ensures Without(rs, selected) == rs
  {
    if rs != [] {
      var front := rs[..|rs| - 1];
      var last := rs[|rs| - 1];
      forall k | 0 <= k < |front| ensures !selected(front[k]) {
        assert front[k] == rs[k];
      }
      WithoutNoneSelected(front, selected);
      assert !selected(last);
      assert Without(rs, selected) == Without(front, selected) + [last];
      assert rs == front + [last];
    }
  }

  /**
   * A counterexample: user 0 sends user 1 a request, then deletes the account. As written
   * the request survives and names a sender that no longer exists; it still shows in
   * user 1's received list.
   */
  lemma AsWrittenLeavesDanglingRequest()
    ensures var alice := User("Alice", "alice@example.com", "h0", [], None);
      var bob := User("Bob", "bob@example.com", "h1", [], None);
      var users := map[0 := alice, 1 := bob];
      var rs := [FriendRequest(0, 0, 1, Pending, None, None)];
      var after := UnfriendEverywhere(users, 0) - {0};
      var kept := Without(rs, (q: FriendRequest) => InvolvesAsWritten(q, 0));
      && kept == rs
      && kept[0].sender !in after
      && kept[0].recipient in after
  {
    var rs := [FriendRequest(0, 0, 1, Pending, None, None)];
    AsWrittenKeepsCreatedRequests(rs, 0);
  }

  /** With the filter on `sender` and `recipient`, deleting `u` leaves no friend list or request naming `u`. */
  lemma DeletionLeavesNoDangling(users: map<UserId, User>, rs: seq<FriendRequest>, u: UserId)
    requires FriendsExist(users) && EndpointsExist(rs, users)
    ensures var after := UnfriendEverywhere(users, u) - {u};
      var kept := Without(rs, (q: FriendRequest) => Involves(q, u));
      FriendsExist(after) && EndpointsExist(kept, after)
  {
    FriendsSurviveDeletion(users, u);
    EndpointsSurviveDeletion(users, rs, u);
  }

  lemma FriendsSurviveDeletion(users: map<UserId, User>, u: UserId)
    requires FriendsExist(users)
    ensures FriendsExist(UnfriendEverywhere(users, u) - {u})
  {
    var after := UnfriendEverywhere(users, u) - {u};
    forall v, f | v in after && f in after[v].friends ensures f in after {
      assert f in users[v].friends && f != u;
    }
  }

  lemma EndpointsSurviveDeletion(users: map<UserId, User>, rs: seq<FriendRequest>, u: UserId)
    requires EndpointsExist(rs, users)
    ensures EndpointsExist(Without(rs, (q: FriendRequest) => Involves(q, u)), UnfriendEverywhere(users, u) - {u})
  {
    var after := UnfriendEverywhere(users, u) - {u};
    var kept := Without(rs, (q: FriendRequest) => Involves(q, u));
    forall i | 0 <= i < |kept| ensures kept[i].sender in after && kept[i].recipient in after {
      assert kept[i] in rs;
      var k :| 0 <= k < |rs| && rs[k] == kept[i];
    }
  }

  /** After step 1 and step 2 no goal belongs to `u` or is shared with `u`. */
  lemma DeletionLeavesNoGoals(goals: seq<RGoal>, u: UserId)
    ensures forall g :: g in Unshare(NotOwnedBy(goals, u), u) ==> g.userId != u && u !in g.sharedWith
  {
    var survivors := NotOwnedBy(goals, u);
    var r := Unshare(survivors, u);
    forall g | g in r ensures g.userId != u && u !in g.sharedWith {
      var k :| 0 <= k < |r| && r[k] == g;
      assert survivors[k] in survivors;
    }
  }

  /**
   * `DELETE /account` with step 4 selecting the requests the user sent or received.
   * Besides the effects of the steps, it leaves no friend list and no request naming a
   * user that is gone, and keeps every reference pointing at an existing user.
   */
  method DeleteAccount(db: Db, u: UserId) returns (r: Result<DeletionCounts, Failure>)
    requires db.Valid()
    modifies db
    ensures db.Valid()
    ensures old(db.NoDangling()) ==> db.NoDangling()
    ensures db.goals == Unshare(NotOwnedBy(old(db.goals), u), u)
    ensures db.requests == Without(old(db.requests), (q: FriendRequest) => Involves(q, u))
    ensures u in old(db.users) ==> db.users == UnfriendEverywhere(old(db.users), u) - {u}
    ensures u !in old(db.users) ==> db.users == UnfriendEverywhere(old(db.users), u)
    ensures db.outbox == old(db.outbox)
    ensures u !in old(db.users) ==> r == Err(USER_NOT_FOUND)
    ensures u in old(db.users) ==> r == Ok(DeletionCounts(
      CountOwned(old(db.goals), u),
      SharedCount(NotOwnedBy(old(db.goals), u), u),
      FriendConnections(old(db.users), u),
      |old(db.requests)| - |Without(old(db.requests), (q: FriendRequest) => Involves(q, u))|))
    ensures u !in db.users
    ensures forall g :: g in db.goals ==> g.userId != u && u !in g.sharedWith
    ensures forall q :: q in db.requests ==> q.sender != u && q.recipient != u
  {
    ghost var users, requests, goals, clean := db.users, db.requests, db.goals, db.NoDangling();
    r := DeleteSteps(db, u, (q: FriendRequest) => Involves(q, u));
    if clean {
      DeletionLeavesNoDangling(users, requests, u);
    }
    if u !in users {
      RemoveAbsent(UnfriendEverywhere(users, u), u);
    }
    DeletionLeavesNoGoals(goals, u);
  }

  /** Removing a key a map does not hold leaves the map as it is. */
  lemma RemoveAbsent(users: map<UserId, User>, u: UserId)
    requires u !in users
    ensures users - {u} == users
  {
  }
}
