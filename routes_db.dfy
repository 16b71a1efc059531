/**
 * The collections the routers under `backend/routes` work on: users with their
 * friend lists and single push token, friend requests, and this variant's goal
 * records (with `status`, `progress`, `subgoals` and `sharedWith`), plus the
 * outbox that `sendPushNotification` hands messages to.
 */
module RoutesDb {
  import opened Wrappers
  import JsText

  type Timestamp = int
  type UserId = nat
  type RequestId = nat
  type GoalId = nat
  type SubgoalId = nat

  datatype User = User(name: string, email: string, passwordHash: string, friends: seq<UserId>, pushToken: Option<string>)

  datatype RequestStatus = Pending | Accepted | Rejected

  /**
   * A friend request. Requests are created with `sender` and `recipient`; the
   * account deletion step filters on paths named `from` and `to`, kept here so
   * that the filter can be stated as written.
   */
  datatype FriendRequest = FriendRequest(
    id: RequestId,
    sender: UserId,
    recipient: UserId,
    status: RequestStatus,
    from: Option<UserId>,
    to: Option<UserId>)

  datatype Subgoal = Subgoal(id: SubgoalId, title: string, completed: bool, completedAt: Option<Timestamp>)

  datatype RGoal = RGoal(
    id: GoalId,
    userId: UserId,
    title: string,
    status: Option<string>,
    progress: int,
    order: int,
    createdAt: Timestamp,
    subgoals: seq<Subgoal>,
    sharedWith: seq<UserId>)

  /** A message handed to `sendPushNotification(token, title, body)`. */
  datatype Note = Note(to: string, title: string, body: string)

  /** An error response: the HTTP status and the `error` text. */
  datatype Failure = Failure(status: int, error: string)

  predicate Distinct<T(==)>(s: seq<T>) {
    forall i, j :: 0 <= i < j < |s| ==> s[i] != s[j]
  }

  predicate UniqueRequestIds(rs: seq<FriendRequest>) {
    forall i, j :: 0 <= i < j < |rs| ==> rs[i].id != rs[j].id
  }

  predicate UniqueGoalIds(goals: seq<RGoal>) {
    forall i, j :: 0 <= i < j < |goals| ==> goals[i].id != goals[j].id
  }

  /** `if (user.pushToken)`: a token is there and is not the empty string. */
  predicate HasToken(u: User) {
    u.pushToken.Some? && u.pushToken.value != ""
  }

  /**
   * `sendPushNotification(user.pushToken, title, body)` guarded by `if (user.pushToken)`:
   * one note when the user has a token that is a valid push token, none otherwise.
   */
  function NoteTo(u: User, title: string, body: string, valid: string -> bool): (n: seq<Note>)
    ensures |n| <= 1
    ensures |n| == 1 <==> HasToken(u) && valid(u.pushToken.value)
    ensures |n| == 1 ==> n[0] == Note(u.pushToken.value, title, body)
  {
    if HasToken(u) && valid(u.pushToken.value) then [Note(u.pushToken.value, title, body)] else []
  }

  /** `$addToSet`: appends `x` unless it is already present. */
  function AddToSet(s: seq<UserId>, x: UserId): (r: seq<UserId>)
    ensures x in r
    ensures forall y :: y in r <==> y in s || y == x
    ensures Distinct(s) ==> Distinct(r)
    ensures x in s ==> r == s
  {
    if x in s then s else s + [x]
  }

  /** `$pull`: removes every occurrence of `x`, keeping the others in order. */
  function Pull(s: seq<UserId>, x: UserId): (r: seq<UserId>)
    ensures forall y :: y in r <==> y in s && y != x
    ensures |r| <= |s|
    ensures x !in s ==> r == s
    ensures Distinct(s) ==> Distinct(r)
  {
    if s == [] then []
    else
      var front := s[..|s| - 1];
      var last := s[|s| - 1];
      assert s == front + [last];
      assert Distinct(s) ==> Distinct(front) && last !in front;
      Pull(front, x) + (if last == x then [] else [last])
  }

  /** The number of occurrences of `x` in `s`. */
  function Occurrences(s: seq<UserId>, x: UserId): nat {
    if s == [] then 0 else Occurrences(s[..|s| - 1], x) + (if s[|s| - 1] == x then 1 else 0)
  }

  /** In a duplicate-free list a member occurs exactly once. */
  lemma {:induction false} DistinctOccursOnce(s: seq<UserId>, x: UserId)
    requires Distinct(s) && x in s
    ensures Occurrences(s, x) == 1
  {
    var front := s[..|s| - 1];
    assert s == front + [s[|s| - 1]];
    assert Distinct(front);
    if s[|s| - 1] == x {
      assert x !in front;
      NotInOccursNever(front, x);
    } else {
      DistinctOccursOnce(front, x);
    }
  }

  lemma {:induction false} NotInOccursNever(s: seq<UserId>, x: UserId)
    requires x !in s
    ensures Occurrences(s, x) == 0
  {
    if s != [] {
      NotInOccursNever(s[..|s| - 1], x);
    }
  }

  /**
   * `User.findOne({ email })`: the first user, in insertion order, whose stored email is
   * `email`. Ids are handed out in increasing order, so the first inserted is the least id.
   */
  function UserByEmail(users: map<UserId, User>, email: string): (r: Option<UserId>)
    ensures r.Some? ==> r.value in users && users[r.value].email == email
    ensures r.Some? ==> forall v :: v in users && users[v].email == email ==> r.value <= v
    ensures r.None? <==> forall u :: u in users ==> users[u].email != email
  {
    var ids := set u | u in users && users[u].email == email;
    assert forall u :: u in users && users[u].email == email ==> u in ids;
    if ids == {} then None
    else
      LeastExists(ids);
      var u :| u in ids && forall v :: v in ids ==> u <= v;
      Some(u)
  }

  lemma LeastExists(s: set<nat>)
    requires s != {}
    ensures exists m :: m in s && forall v :: v in s ==> m <= v
  {
    var x :| x in s;
    LeastAtMost(s, x);
  }

  /** Below any member of a set of naturals there is a least member: descend while a smaller one exists. */
  lemma {:induction false} LeastAtMost(s: set<nat>, x: nat)
    requires x in s
    ensures exists m :: m in s && forall v :: v in s ==> m <= v
    decreases x
  {
    if forall v :: v in s ==> x <= v {
      assert x in s;
    } else {
      var y :| y in s && y < x;
      LeastAtMost(s, y);
    }
  }

  /** `findById` on the requests: the position of the request with that id, or -1. */
  function FindRequest(rs: seq<FriendRequest>, id: RequestId): (i: int)
    ensures -1 <= i < |rs|
    ensures i >= 0 ==> rs[i].id == id
    ensures i == -1 <==> forall k :: 0 <= k < |rs| ==> rs[k].id != id
  {
    if rs == [] then -1
    else if rs[0].id == id then 0
    else
      var j := FindRequest(rs[1..], id);
      assert forall k :: 1 <= k < |rs| ==> rs[k] == rs[1..][k - 1];
      if j < 0 then -1 else j + 1
  }

  /** `Goal.findOne({ _id: id, userId: u })`: the position of the match, or -1. */
  function FindOwnedGoal(goals: seq<RGoal>, id: GoalId, u: UserId): (i: int)
    ensures -1 <= i < |goals|
    ensures i >= 0 ==> goals[i].id == id && goals[i].userId == u
    ensures i == -1 <==> forall k :: 0 <= k < |goals| ==> !(goals[k].id == id && goals[k].userId == u)
  {
    if goals == [] then -1
    else if goals[0].id == id && goals[0].userId == u then 0
    else
      var j := FindOwnedGoal(goals[1..], id, u);
      assert forall k :: 1 <= k < |goals| ==> goals[k] == goals[1..][k - 1];
      if j < 0 then -1 else j + 1
  }

  /** `Goal.countDocuments({ userId: u })`. */
  function CountOwned(goals: seq<RGoal>, u: UserId): (n: nat)
    ensures n <= |goals|
  {
    if goals == [] then 0 else CountOwned(goals[..|goals| - 1], u) + (if goals[|goals| - 1].userId == u then 1 else 0)
  }

  /** Friend lists hold no repeats, emails are stored lower-cased and no two users share one. */
  predicate ValidUsers(users: map<UserId, User>, next: UserId) {
    && (forall u :: u in users ==> u < next && Distinct(users[u].friends))
    && (forall u :: u in users ==> JsText.ToLower(users[u].email) == users[u].email)
    && (forall u, v :: u in users && v in users && u != v ==> users[u].email != users[v].email)
  }

  predicate ValidRequests(rs: seq<FriendRequest>, next: RequestId) {
    (forall i :: 0 <= i < |rs| ==> rs[i].id < next) && UniqueRequestIds(rs)
  }

  predicate ValidGoals(goals: seq<RGoal>, next: GoalId) {
    (forall i :: 0 <= i < |goals| ==> goals[i].id < next) && UniqueGoalIds(goals)
  }

  /** A goal with a new id below the bound can be appended to valid goals. */
  lemma AppendGoalValid(rest: seq<RGoal>, x: RGoal, next: GoalId)
    requires ValidGoals(rest, next) && x.id < next && forall g :: g in rest ==> g.id != x.id
    ensures ValidGoals(rest + [x], next)
  {
    var r := rest + [x];
    forall i, j | 0 <= i < j < |r| ensures r[i].id != r[j].id {
      assert r[i] == rest[i];
      if j == |rest| {
        assert rest[i] in rest;
      } else {
        assert r[j] == rest[j];
      }
    }
  }

  /** A request with a new id below the bound can be appended to valid requests. */
  lemma AppendRequestValid(rest: seq<FriendRequest>, x: FriendRequest, next: RequestId)
    requires ValidRequests(rest, next) && x.id < next && forall q :: q in rest ==> q.id != x.id
    ensures ValidRequests(rest + [x], next)
  {
    var r := rest + [x];
    forall i, j | 0 <= i < j < |r| ensures r[i].id != r[j].id {
      assert r[i] == rest[i];
      if j == |rest| {
        assert rest[i] in rest;
      } else {
        assert r[j] == rest[j];
      }
    }
  }

  /** Every friend a user lists has a record. */
  predicate FriendsExist(users: map<UserId, User>) {
    forall u, f :: u in users && f in users[u].friends ==> f in users
  }

  /** Every request's sender and recipient have a record. */
  predicate EndpointsExist(rs: seq<FriendRequest>, users: map<UserId, User>) {
    forall i :: 0 <= i < |rs| ==> rs[i].sender in users && rs[i].recipient in users
  }

  class Db {
    var users: map<UserId, User>
    var requests: seq<FriendRequest>
    var goals: seq<RGoal>
    var outbox: seq<Note>
    var nextUserId: UserId
    var nextRequestId: RequestId
    var nextGoalId: GoalId

    /** Users, requests and goals are each valid; ids are unique and below the next fresh id. */
    ghost predicate Valid()
      reads this
    {
      ValidUsers(users, nextUserId) && ValidRequests(requests, nextRequestId) && ValidGoals(goals, nextGoalId)
    }

    /** No friend list and no friend request refers to a user that does not exist. */
    ghost predicate NoDangling()
      reads this
    {
      FriendsExist(users) && EndpointsExist(requests, users)
    }

    constructor ()
      ensures Valid() && NoDangling()
      ensures users == map[] && requests == [] && goals == [] && outbox == []
    {
      users := map[];
      requests := [];
      goals := [];
      outbox := [];
      nextUserId := 0;
      nextRequestId := 0;
      nextGoalId := 0;
    }
  }
}
