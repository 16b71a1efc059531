/**
 * The friend-request state machine of `backend/routes/friends.js`: sending a
 * request behind four ordered guards, accepting or rejecting it as its
 * recipient, listing requests and friends, and removing a friend. Push
 * notifications are appended to the database outbox; `Expo.isExpoPushToken`
 * is the parameter `valid`.
 */
module FriendRoutes {
  import opened Wrappers
  import opened JsText
  import opened RoutesDb

  const SEND_FAILED := Failure(500, "Failed to send friend request")
  const USER_NOT_FOUND := Failure(404, "User not found with that email")
  const SELF_REQUEST := Failure(400, "Cannot send friend request to yourself")
  const ALREADY_FRIENDS := Failure(400, "Already friends with this user")
  const ALREADY_PENDING := Failure(400, "Friend request already pending")
  const REQUEST_NOT_FOUND := Failure(404, "Friend request not found")
  const NOT_AUTHORIZED := Failure(403, "Not authorized")
  const ALREADY_PROCESSED := Failure(400, "Request already processed")
  const ACCEPT_FAILED := Failure(500, "Failed to accept friend request")
  const FETCH_FRIENDS_FAILED := Failure(500, "Failed to fetch friends")

  /** A pending request from `a` to `b` exists. */
  predicate PendingBetween(rs: seq<FriendRequest>, a: UserId, b: UserId) {
    exists k :: 0 <= k < |rs| && rs[k].sender == a && rs[k].recipient == b && rs[k].status == Pending
  }

  /**
   * The guards of `POST /request`, in the order they run. An absent email makes
   * `toLowerCase` throw, and a sender whose record is gone makes `sender.friends`
   * throw: both answer 500. On success the result is the recipient.
   */
  function SendCheck(users: map<UserId, User>, rs: seq<FriendRequest>, caller: UserId, email: Option<string>): (r: Result<UserId, Failure>)
    ensures r == Err(SEND_FAILED) <==>
              email.None? || (UserByEmail(users, ToLower(email.value)).Some?
                              && UserByEmail(users, ToLower(email.value)) != Some(caller) && caller !in users)
    ensures r == Err(USER_NOT_FOUND) <==>
              email.Some? && forall u :: u in users ==> users[u].email != ToLower(email.value)
    ensures r == Err(SELF_REQUEST) <==> email.Some? && UserByEmail(users, ToLower(email.value)) == Some(caller)
    ensures r.Ok? <==>
              && email.Some?
              && var to := UserByEmail(users, ToLower(email.value));
              && to.Some? && to.value != caller && caller in users
              && to.value !in users[caller].friends
              && !PendingBetween(rs, caller, to.value) && !PendingBetween(rs, to.value, caller)
    ensures r.Ok? ==> r.value in users && users[r.value].email == ToLower(email.value)
  {
    if email.None? then Err(SEND_FAILED)
    else
      match UserByEmail(users, ToLower(email.value))
      case None => Err(USER_NOT_FOUND)
      case Some(to) =>
        if to == caller then Err(SELF_REQUEST)
        else if caller !in users then Err(SEND_FAILED)
        else if to in users[caller].friends then Err(ALREADY_FRIENDS)
        else if PendingBetween(rs, caller, to) || PendingBetween(rs, to, caller) then Err(ALREADY_PENDING)
        else Ok(to)
  }

  /** Among valid users, the four refusals of `POST /request` come in a fixed order and each one only once the previous checks passed. */
  lemma SendRefusalOrder(users: map<UserId, User>, rs: seq<FriendRequest>, caller: UserId, email: string)
    requires caller in users
    ensures var to := UserByEmail(users, ToLower(email));
      var r := SendCheck(users, rs, caller, Some(email));
      && (to.None? ==> r == Err(USER_NOT_FOUND))
      && (to == Some(caller) ==> r == Err(SELF_REQUEST))
      && (to.Some? && to.value != caller && to.value in users[caller].friends ==> r == Err(ALREADY_FRIENDS))
      && ((to.Some? && to.value != caller && to.value !in users[caller].friends
           && (PendingBetween(rs, caller, to.value) || PendingBetween(rs, to.value, caller))) ==> r == Err(ALREADY_PENDING))
  {
  }

  /** Storing a request that takes the next id keeps the requests valid with the bound moved on by one. */
  lemma NewRequestValid(rs: seq<FriendRequest>, x: FriendRequest, next: RequestId)
    requires ValidRequests(rs, next) && x.id == next
    ensures ValidRequests(rs + [x], next + 1)
  {
    assert ValidRequests(rs, next + 1);
    AppendRequestValid(rs, x, next + 1);
  }

  /**
   * `POST /request`: when every guard passes, a pending request from the caller to the
   * recipient is stored, and then the recipient is notified.
   */
  method SendRequest(db: Db, caller: UserId, email: Option<string>, valid: string -> bool) returns (r: Result<FriendRequest, Failure>)
    requires db.Valid()
    modifies db
    ensures db.Valid()
    ensures old(db.NoDangling()) ==> db.NoDangling()
    ensures db.users == old(db.users) && db.goals == old(db.goals)
    ensures var c := SendCheck(old(db.users), old(db.requests), caller, email);
      && (c.Err? ==> r == Err(c.error) && db.requests == old(db.requests) && db.outbox == old(db.outbox))
      && (c.Ok? ==>
            && r == Ok(FriendRequest(old(db.nextRequestId), caller, c.value, Pending, None, None))
            && db.requests == old(db.requests) + [r.value]
            && db.outbox == old(db.outbox)
                 + NoteTo(db.users[c.value], "New Friend Request", db.users[caller].name + " wants to be your friend!", valid))
  {
    var c := SendCheck(db.users, db.requests, caller, email);
    if c.Err? {
      return Err(c.error);
    }
    var request := FriendRequest(db.nextRequestId, caller, c.value, Pending, None, None);
    NewRequestValid(db.requests, request, db.nextRequestId);
    db.requests := db.requests + [request];
    db.nextRequestId := db.nextRequestId + 1;
    db.outbox := db.outbox + NoteTo(db.users[c.value], "New Friend Request", db.users[caller].name + " wants to be your friend!", valid);
    r := Ok(request);
  }

  /** A new request is pending, so a second send between the same two users, in either direction, is refused. */
  lemma SendTwiceRefused(users: map<UserId, User>, rs: seq<FriendRequest>, caller: UserId, email: Option<string>, id: RequestId, email2: Option<string>)
    requires SendCheck(users, rs, caller, email).Ok?
    ensures var to := SendCheck(users, rs, caller, email).value;
      var rs2 := rs + [FriendRequest(id, caller, to, Pending, None, None)];
      && PendingBetween(rs2, caller, to)
      && (UserByEmail(users, ToLower(email.value)) == Some(to) ==> SendCheck(users, rs2, caller, email) == Err(ALREADY_PENDING))
  {
    var to := SendCheck(users, rs, caller, email).value;
    var rs2 := rs + [FriendRequest(id, caller, to, Pending, None, None)];
    assert rs2[|rs|].sender == caller && rs2[|rs|].recipient == to;
  }

  /** `GET /requests`: the pending requests the user has received, in stored order. */
  function Received(rs: seq<FriendRequest>, u: UserId): (r: seq<FriendRequest>)
    ensures |r| <= |rs|
    ensures forall q :: q in r <==> q in rs && q.recipient == u && q.status == Pending
  {
    if rs == [] then []
    else
      var last := rs[|rs| - 1];
      assert rs == rs[..|rs| - 1] + [last];
      Received(rs[..|rs| - 1], u) + (if last.recipient == u && last.status == Pending then [last] else [])
  }

  /** `GET /requests/sent`: the pending requests the user has sent, in stored order. */
  function Sent(rs: seq<FriendRequest>, u: UserId): (r: seq<FriendRequest>)
    ensures |r| <= |rs|
    ensures forall q :: q in r <==> q in rs && q.sender == u && q.status == Pending
  {
    if rs == [] then []
    else
      var last := rs[|rs| - 1];
      assert rs == rs[..|rs| - 1] + [last];
      Sent(rs[..|rs| - 1], u) + (if last.sender == u && last.status == Pending then [last] else [])
  }

  /** A pending request shows up in its recipient's received list and its sender's sent list, and nowhere else. */
  lemma PendingListedTwice(rs: seq<FriendRequest>, q: FriendRequest, u: UserId)
    requires q in rs && q.status == Pending
    ensures q in Received(rs, u) <==> u == q.recipient
    ensures q in Sent(rs, u) <==> u == q.sender
  {
  }

  /** The friend lists after `$addToSet` in both directions; a user without a record is left alone. */
  function Befriend(users: map<UserId, User>, s: UserId, t: UserId): (r: map<UserId, User>)
    requires s in users
    ensures r.Keys == users.Keys
    ensures t in r[s].friends
    ensures t in users ==> s in r[t].friends
    ensures r[s].friends == AddToSet(users[s].friends, t)
    ensures t in users && t != s ==> r[t].friends == AddToSet(users[t].friends, s)
    ensures forall u :: u in users && u != s && u != t ==> r[u] == users[u]
    ensures forall u :: u in users ==> r[u].name == users[u].name && r[u].email == users[u].email
                                       && r[u].pushToken == users[u].pushToken
  {
    var u1 := users[s := users[s].(friends := AddToSet(users[s].friends, t))];
    if t in u1 then u1[t := u1[t].(friends := AddToSet(u1[t].friends, s))] else u1
  }

  /** `$addToSet` in both directions keeps the users valid: no list gains a repeat and no e-mail changes. */
  lemma BefriendValid(users: map<UserId, User>, s: UserId, t: UserId, next: UserId)
    requires s in users && ValidUsers(users, next)
    ensures ValidUsers(Befriend(users, s, t), next)
  {
    var r := Befriend(users, s, t);
    assert forall u :: u in r ==> Distinct(r[u].friends) by {
      forall u | u in r ensures Distinct(r[u].friends) {
        if u != s && u != t {
          assert r[u] == users[u];
        }
      }
    }
  }

  /** Setting a request's status changes no request id. */
  lemma StatusValid(rs: seq<FriendRequest>, i: nat, status: RequestStatus, next: RequestId)
    requires i < |rs| && ValidRequests(rs, next)
    ensures ValidRequests(rs[i := rs[i].(status := status)], next)
  {
    var r := rs[i := rs[i].(status := status)];
    assert forall k :: 0 <= k < |rs| ==> r[k].id == rs[k].id;
  }

  /**
   * `POST /request/:id/accept`. The request must exist (404), be addressed to the caller
   * (403) and be pending (400). Its status is then saved as accepted before anything
   * else: a sender without a record then fails with 500, leaving the request accepted.
   * Otherwise both friend lists gain the other user, and the sender is notified; a
   * recipient without a record then makes `recipient.name` throw (500).
   */
  method Accept(db: Db, caller: UserId, requestId: RequestId, valid: string -> bool) returns (r: Result<string, Failure>)
    requires db.Valid()
    modifies db
    ensures db.Valid()
    ensures db.goals == old(db.goals) && db.nextRequestId == old(db.nextRequestId)
    ensures var i := FindRequest(old(db.requests), requestId);
      && (i < 0 ==> r == Err(REQUEST_NOT_FOUND) && unchanged(db))
      && (i >= 0 && old(db.requests[i].recipient) != caller ==> r == Err(NOT_AUTHORIZED) && unchanged(db))
      && (i >= 0 && old(db.requests[i].recipient) == caller && old(db.requests[i].status) != Pending ==>
            r == Err(ALREADY_PROCESSED) && unchanged(db))
      && (i >= 0 && old(db.requests[i].recipient) == caller && old(db.requests[i].status) == Pending ==>
            var s := old(db.requests[i].sender);
            && db.requests == old(db.requests)[i := old(db.requests[i]).(status := Accepted)]
            && (s !in old(db.users) ==> r == Err(ACCEPT_FAILED) && db.users == old(db.users) && db.outbox == old(db.outbox))
            && (s in old(db.users) ==>
                  && db.users == Befriend(old(db.users), s, caller)
                  && (caller !in old(db.users) && HasToken(old(db.users[s])) ==> r == Err(ACCEPT_FAILED))
                  && (caller !in old(db.users) ==> db.outbox == old(db.outbox))
                  && (caller in old(db.users) || !HasToken(old(db.users[s])) ==>
                        r == Ok("Friend request accepted"))
                  && (caller in old(db.users) ==>
                        db.outbox == old(db.outbox) + NoteTo(old(db.users[s]), "Friend Request Accepted",
                                                             old(db.users[caller].name) + " accepted your friend request!", valid))))
  {
    var i := FindRequest(db.requests, requestId);
    if i < 0 {
      return Err(REQUEST_NOT_FOUND);
    }
    var request := db.requests[i];
    if request.recipient != caller {
      return Err(NOT_AUTHORIZED);
    }
    if request.status != Pending {
      return Err(ALREADY_PROCESSED);
    }
    StatusValid(db.requests, i, Accepted, db.nextRequestId);
    db.requests := db.requests[i := request.(status := Accepted)];
    if request.sender !in db.users {
      return Err(ACCEPT_FAILED);
    }
    var sender := db.users[request.sender];
    BefriendValid(db.users, request.sender, caller, db.nextUserId);
    db.users := Befriend(db.users, request.sender, caller);
    if HasToken(sender) {
      if caller !in db.users {
        return Err(ACCEPT_FAILED);
      }
      db.outbox := db.outbox + NoteTo(sender, "Friend Request Accepted", db.users[caller].name + " accepted your friend request!", valid);
    }
    r := Ok("Friend request accepted");
  }

  /** After an accept between two existing users each lists the other exactly once. */
  lemma BefriendOnce(users: map<UserId, User>, s: UserId, t: UserId)
    requires s in users && t in users && s != t
    requires Distinct(users[s].friends) && Distinct(users[t].friends)
    ensures var r := Befriend(users, s, t);
      Occurrences(r[s].friends, t) == 1 && Occurrences(r[t].friends, s) == 1
  {
    var r := Befriend(users, s, t);
    assert r[s].friends == AddToSet(users[s].friends, t);
    assert r[t].friends == AddToSet(users[t].friends, s);
    DistinctOccursOnce(r[s].friends, t);
    DistinctOccursOnce(r[t].friends, s);
  }

  /** Accepting again between the same two existing users changes no friend list: `$addToSet` is idempotent. */
  lemma BefriendIdempotent(users: map<UserId, User>, s: UserId, t: UserId)
    requires s in users && t in users
    ensures Befriend(Befriend(users, s, t), s, t) == Befriend(users, s, t)
  {
    var r := Befriend(users, s, t);
    var u1 := r[s := r[s].(friends := AddToSet(r[s].friends, t))];
    assert r[s].(friends := AddToSet(r[s].friends, t)) == r[s];
    assert u1 == r;
    assert u1[t].(friends := AddToSet(u1[t].friends, s)) == u1[t];
    assert u1[t := u1[t]] == u1;
  }

  /** An accept between existing users keeps every friend list and every request pointing at existing users. */
  lemma BefriendNoDangling(users: map<UserId, User>, s: UserId, t: UserId)
    requires s in users && t in users
    requires forall u, f :: u in users && f in users[u].friends ==> f in users
    ensures var r := Befriend(users, s, t);
      forall u, f :: u in r && f in r[u].friends ==> f in r
  {
  }

  /**
   * The state an accept of the pending request at `i` leaves behind when no reference
   * dangled before: the sender exists, so both friend lists are updated, and every
   * friend and request endpoint still exists afterwards.
   */
  lemma AcceptKeepsNoDangling(users: map<UserId, User>, rs: seq<FriendRequest>, i: nat)
    requires i < |rs| && FriendsExist(users) && EndpointsExist(rs, users)
    ensures rs[i].sender in users
    ensures var after := Befriend(users, rs[i].sender, rs[i].recipient);
      FriendsExist(after) && EndpointsExist(rs[i := rs[i].(status := Accepted)], after)
  {
    BefriendNoDangling(users, rs[i].sender, rs[i].recipient);
  }

  /**
   * `POST /request/:id/reject`: the request must exist (404) and be addressed to the
   * caller (403); its status then becomes rejected whatever it was, and no friend list changes.
   */
  method Reject(db: Db, caller: UserId, requestId: RequestId) returns (r: Result<string, Failure>)
    requires db.Valid()
    modifies db
    ensures db.Valid()
    ensures old(db.NoDangling()) ==> db.NoDangling()
    ensures db.users == old(db.users) && db.goals == old(db.goals) && db.outbox == old(db.outbox)
    ensures var i := FindRequest(old(db.requests), requestId);
      && (i < 0 ==> r == Err(REQUEST_NOT_FOUND) && db.requests == old(db.requests))
      && (i >= 0 && old(db.requests[i].recipient) != caller ==> r == Err(NOT_AUTHORIZED) && db.requests == old(db.requests))
      && (i >= 0 && old(db.requests[i].recipient) == caller ==>
            r == Ok("Friend request rejected") && db.requests == old(db.requests)[i := old(db.requests[i]).(status := Rejected)])
  {
    var i := FindRequest(db.requests, requestId);
    if i < 0 {
      return Err(REQUEST_NOT_FOUND);
    }
    if db.requests[i].recipient != caller {
      return Err(NOT_AUTHORIZED);
    }
    StatusValid(db.requests, i, Rejected, db.nextRequestId);
    db.requests := db.requests[i := db.requests[i].(status := Rejected)];
    r := Ok("Friend request rejected");
  }

  /** The friends of a list that still have a record, in list order: what `populate('friends')` yields. */
  function Existing(users: map<UserId, User>, fs: seq<UserId>): (r: seq<UserId>)
    ensures |r| <= |fs|
    ensures forall f :: f in r <==> f in fs && f in users
  {
    if fs == [] then []
    else
      var last := fs[|fs| - 1];
      assert fs == fs[..|fs| - 1] + [last];
      Existing(users, fs[..|fs| - 1]) + (if last in users then [last] else [])
  }

  /** `GET /`: the caller's friends that exist; a caller without a record makes `user.friends` throw (500). */
  function ListFriends(users: map<UserId, User>, caller: UserId): (r: Result<seq<UserId>, Failure>)
    ensures r.Err? <==> caller !in users
    ensures r.Err? ==> r.error == FETCH_FRIENDS_FAILED
    ensures r.Ok? ==> forall f :: f in r.value <==> f in users[caller].friends && f in users
  {
    if caller !in users then Err(FETCH_FRIENDS_FAILED) else Ok(Existing(users, users[caller].friends))
  }

  /** `$pull` of `x` from the friend list of user `u`; nothing happens when `u` has no record. */
  function Unfriend(users: map<UserId, User>, u: UserId, x: UserId): (r: map<UserId, User>)
    ensures r.Keys == users.Keys
    ensures u in users ==> x !in r[u].friends && forall f :: f in r[u].friends <==> f in users[u].friends && f != x
    ensures forall v :: v in users && v != u ==> r[v] == users[v]
    ensures forall v :: v in users ==> r[v].name == users[v].name && r[v].email == users[v].email
                                       && r[v].pushToken == users[v].pushToken
  {
    if u in users then users[u := users[u].(friends := Pull(users[u].friends, x))] else users
  }

  /** `$pull` from one friend list keeps the users valid. */
  lemma UnfriendKeepsValid(users: map<UserId, User>, u: UserId, x: UserId, next: UserId)
    requires ValidUsers(users, next)
    ensures ValidUsers(Unfriend(users, u, x), next)
  {
  }

  /** `$pull` from one friend list leaves no friend and no request endpoint dangling that did not before. */
  lemma UnfriendNoDangling(users: map<UserId, User>, rs: seq<FriendRequest>, u: UserId, x: UserId)
    requires FriendsExist(users) && EndpointsExist(rs, users)
    ensures FriendsExist(Unfriend(users, u, x)) && EndpointsExist(rs, Unfriend(users, u, x))
  {
  }

  /** `DELETE /:friendId`: each user is taken out of the other's list; always answered 'Friend removed'. */
  method RemoveFriend(db: Db, caller: UserId, friendId: UserId) returns (message: string)
    requires db.Valid()
    modifies db
    ensures db.Valid()
    ensures old(db.NoDangling()) ==> db.NoDangling()
    ensures message == "Friend removed"
    ensures db.users == Unfriend(Unfriend(old(db.users), caller, friendId), friendId, caller)
    ensures db.requests == old(db.requests) && db.goals == old(db.goals) && db.outbox == old(db.outbox)
  {
    UnfriendKeepsValid(db.users, caller, friendId, db.nextUserId);
    if db.NoDangling() {
      UnfriendNoDangling(db.users, db.requests, caller, friendId);
    }
    db.users := Unfriend(db.users, caller, friendId);
    UnfriendKeepsValid(db.users, friendId, caller, db.nextUserId);
    if db.NoDangling() {
      UnfriendNoDangling(db.users, db.requests, friendId, caller);
    }
    db.users := Unfriend(db.users, friendId, caller);
    message := "Friend removed";
  }

  /** Pulling a value that is not there changes nothing. */
  lemma UnfriendAbsent(users: map<UserId, User>, u: UserId, x: UserId)
    requires u in users ==> x !in users[u].friends
    ensures Unfriend(users, u, x) == users
  {
    if u in users {
      assert users[u].(friends := Pull(users[u].friends, x)) == users[u];
      assert users[u := users[u]] == users;
    }
  }

  /** After a removal neither user lists the other, and removing again changes nothing. */
  lemma UnfriendBothWays(users: map<UserId, User>, a: UserId, b: UserId)
    ensures var r := Unfriend(Unfriend(users, a, b), b, a);
      && (a in r ==> b !in r[a].friends)
      && (b in r ==> a !in r[b].friends)
      && Unfriend(Unfriend(r, a, b), b, a) == r
  {
    var r1 := Unfriend(users, a, b);
    var r := Unfriend(r1, b, a);
    if a in r && a != b {
      assert r[a] == r1[a];
    }
    UnfriendAbsent(r, a, b);
    UnfriendAbsent(r, b, a);
  }
}
