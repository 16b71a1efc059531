/**
 * The goal router of `backend/routes/goals.js`, which works on goal records with
 * `subgoals`, `status` and `progress`: create, list, get, update, delete,
 * reorder, the subgoal toggle with its rounded percentage, and the friend
 * notifications sent on completions.
 */
module GoalRoutes {
  import opened Wrappers
  import opened Sorting
  import opened RoutesDb
  import GoalStore

  const CREATE_FAILED := Failure(500, "Failed to create goal")
  const GOAL_NOT_FOUND := Failure(404, "Goal not found")
  const SUBGOAL_NOT_FOUND := Failure(404, "Subgoal not found")
  const UPDATE_FAILED := Failure(500, "Failed to update goal")

  /** The title of an achievement notification. */
  function AchievementTitle(name: string, isSubgoal: bool): (t: string)
    ensures isSubgoal ==> t == name + " achieved a subgoal!"
    ensures !isSubgoal ==> t == name + " achieved a goal!"
  {
    name + " achieved a " + (if isSubgoal then "subgoal" else "goal") + "!"
  }

  /** One note per listed friend that still has a record and a valid push token, in list order. */
  function FriendNotes(users: map<UserId, User>, fs: seq<UserId>, title: string, body: string, valid: string -> bool): (r: seq<Note>)
    ensures |r| <= |fs|
    ensures forall n :: n in r <==>
      exists f :: f in fs && f in users && HasToken(users[f]) && valid(users[f].pushToken.value)
                  && n == Note(users[f].pushToken.value, title, body)
  {
    if fs == [] then []
    else
      var front := fs[..|fs| - 1];
      var last := fs[|fs| - 1];
      assert fs == front + [last];
      FriendNotes(users, front, title, body, valid) + (if last in users then NoteTo(users[last], title, body, valid) else [])
  }

  /**
   * What `notifyFriendsAboutGoal(userId, goalTitle, isSubgoal)` sends: nothing when the
   * user has no record (the failure is swallowed); otherwise one note to each friend
   * with a push token, titled after the user and carrying the goal title as its body.
   */
  function Audience(users: map<UserId, User>, u: UserId, goalTitle: string, isSubgoal: bool, valid: string -> bool): (r: seq<Note>)
    ensures u !in users ==> r == []
    ensures forall n :: n in r <==>
      && u in users
      && exists f :: f in users[u].friends && f in users && HasToken(users[f]) && valid(users[f].pushToken.value)
                     && n == Note(users[f].pushToken.value, AchievementTitle(users[u].name, isSubgoal), goalTitle)
  {
    if u !in users then [] else FriendNotes(users, users[u].friends, AchievementTitle(users[u].name, isSubgoal), goalTitle, valid)
  }

  /** `notifyFriendsAboutGoal`: the loop over the populated friends. */
  method NotifyFriendsAboutGoal(db: Db, u: UserId, goalTitle: string, isSubgoal: bool, valid: string -> bool)
    modifies db
    ensures db.outbox == old(db.outbox) + Audience(old(db.users), u, goalTitle, isSubgoal, valid)
    ensures db.users == old(db.users) && db.requests == old(db.requests) && db.goals == old(db.goals)
    ensures db.nextUserId == old(db.nextUserId) && db.nextRequestId == old(db.nextRequestId)
            && db.nextGoalId == old(db.nextGoalId)
  {
    if u !in db.users {
      return;
    }
    var user := db.users[u];
    var title := AchievementTitle(user.name, isSubgoal);
    var sent: seq<Note> := [];
    var i := 0;
    while i < |user.friends|
      invariant 0 <= i <= |user.friends|
      invariant sent == FriendNotes(db.users, user.friends[..i], title, goalTitle, valid)
      invariant db.users == old(db.users) && db.outbox == old(db.outbox)
    {
      var f := user.friends[i];
      assert user.friends[..i + 1][..i] == user.friends[..i];
      if f in db.users {
        sent := sent + NoteTo(db.users[f], title, goalTitle, valid);
      }
      i := i + 1;
    }
    assert user.friends[..i] == user.friends;
    db.outbox := db.outbox + sent;
  }

  /** The fields a create request may carry; everything else is set by the server. */
  datatype GoalBody = GoalBody(
    title: Option<string>,
    status: Option<string>,
    progress: Option<int>,
    subgoals: seq<Subgoal>,
    sharedWith: seq<UserId>)

  /** The caller's goals, in stored order: `Goal.find({ userId })`. */
  function Owned(goals: seq<RGoal>, u: UserId): (r: seq<RGoal>)
    ensures |r| == CountOwned(goals, u)
    ensures forall g :: g in r <==> g in goals && g.userId == u
  {
    if goals == [] then []
    else
      var last := goals[|goals| - 1];
      assert goals == goals[..|goals| - 1] + [last];
      Owned(goals[..|goals| - 1], u) + (if last.userId == u then [last] else [])
  }

  /**
   * `POST /`: the new goal belongs to the caller and its `order` is the number of goals
   * the caller had before; the caller cannot choose either. A missing or empty title
   * fails validation, answered 500.
   */
  method CreateGoal(db: Db, caller: UserId, body: GoalBody, now: Timestamp) returns (r: Result<RGoal, Failure>)
    requires db.Valid()
    modifies db
    ensures db.Valid()
    ensures db.users == old(db.users) && db.requests == old(db.requests) && db.outbox == old(db.outbox)
    ensures body.title.None? || body.title == Some("") ==> r == Err(CREATE_FAILED) && db.goals == old(db.goals)
    ensures body.title.Some? && body.title != Some("") ==>
      && r == Ok(RGoal(old(db.nextGoalId), caller, body.title.value, body.status, body.progress.GetOr(0),
                       CountOwned(old(db.goals), caller), now, body.subgoals, body.sharedWith))
      && db.goals == old(db.goals) + [r.value]
      && CountOwned(db.goals, caller) == CountOwned(old(db.goals), caller) + 1
  {
    if body.title.None? || body.title.value == "" {
      return Err(CREATE_FAILED);
    }
    var goalCount := CountOwned(db.goals, caller);
    var goal := RGoal(db.nextGoalId, caller, body.title.value, body.status, body.progress.GetOr(0),
                      goalCount, now, body.subgoals, body.sharedWith);
    assert (db.goals + [goal])[..|db.goals|] == db.goals;
    db.goals := db.goals + [goal];
    db.nextGoalId := db.nextGoalId + 1;
    r := Ok(goal);
  }

  /** `sort({ createdAt: -1 })`: newest first. */
  function NewestFirst(g: RGoal): Rank {
    Rank(-g.createdAt, 0)
  }

  /** `GET /`: exactly the caller's goals, newest first, ties in stored order. */
  function ListGoals(goals: seq<RGoal>, caller: UserId): (r: seq<RGoal>)
    ensures |r| == CountOwned(goals, caller)
    ensures forall g :: g in r <==> g in goals && g.userId == caller
    ensures forall i, j :: 0 <= i < j < |r| ==> r[i].createdAt >= r[j].createdAt
  {
    var mine := Owned(goals, caller);
    var sorted := Sort(mine, NewestFirst);
    SortPermutesAndOrders(mine, NewestFirst);
    assert forall g :: g in sorted <==> g in mine by {
      forall g ensures g in sorted <==> g in mine {
        SortMembers(mine, NewestFirst, g);
      }
    }
    assert forall i, j :: 0 <= i < j < |sorted| ==> RankLe(NewestFirst(sorted[i]), NewestFirst(sorted[j]));
    sorted
  }

  /** `GET /:id`: the goal with that id, only when the caller owns it. */
  function GetGoal(goals: seq<RGoal>, caller: UserId, id: GoalId): (r: Result<RGoal, Failure>)
    ensures r.Ok? <==> exists k :: 0 <= k < |goals| && goals[k].id == id && goals[k].userId == caller
    ensures r.Ok? ==> r.value in goals && r.value.id == id && r.value.userId == caller
    ensures r.Err? ==> r.error == GOAL_NOT_FOUND
  {
    var i := FindOwnedGoal(goals, id, caller);
    if i < 0 then Err(GOAL_NOT_FOUND) else Ok(goals[i])
  }

  /** A goal after the reorder writes: a goal the caller owns and lists takes the last position its id has in the list. */
  function ReorderedBy(g: RGoal, ids: seq<GoalId>, u: UserId): (r: RGoal)
  {
    if g.userId == u && g.id in ids then g.(order := GoalStore.PositionOf(ids, g.id)) else g
  }

  /** The position found for an id is its last one in the list. */
  lemma {:induction false} PositionOfIsLast(ids: seq<GoalId>, x: GoalId)
    requires x in ids
    ensures GoalStore.PositionOf(ids, x) >= 0
    ensures forall k :: GoalStore.PositionOf(ids, x) < k < |ids| ==> ids[k] != x
  {
    if ids[|ids| - 1] != x {
      var front := ids[..|ids| - 1];
      assert x in front by {
        var k :| 0 <= k < |ids| && ids[k] == x;
        assert front[k] == x;
      }
      PositionOfIsLast(front, x);
    }
  }

  /** One step of the reorder loop: the write at index `i` is the last one so far for its id. */
  lemma ReorderedStep(g: RGoal, ids: seq<GoalId>, u: UserId, i: nat)
    requires i < |ids|
    ensures ReorderedBy(g, ids[..i + 1], u) ==
      if g.userId == u && g.id == ids[i] then ReorderedBy(g, ids[..i], u).(order := i) else ReorderedBy(g, ids[..i], u)
  {
    assert ids[..i + 1] == ids[..i] + [ids[i]];
    assert ids[..i + 1][..i] == ids[..i];
  }

  /** The reorder loop's invariant: every goal is as the first `i` writes leave it. */
  ghost predicate ReorderedUpTo(goals: seq<RGoal>, before: seq<RGoal>, ids: seq<GoalId>, caller: UserId, i: nat)
    requires i <= |ids|
  {
    |goals| == |before| && forall m :: 0 <= m < |goals| ==> goals[m] == ReorderedBy(before[m], ids[..i], caller)
  }

  /** Once every id has been written, each goal is as the whole reordering leaves it. */
  lemma ReorderedAll(goals: seq<RGoal>, before: seq<RGoal>, ids: seq<GoalId>, caller: UserId)
    requires ReorderedUpTo(goals, before, ids, caller, |ids|)
    ensures |goals| == |before| && forall m :: 0 <= m < |goals| ==> goals[m] == ReorderedBy(before[m], ids, caller)
  {
    assert ids[..|ids|] == ids;
  }

  /** The write of one loop step: the goal found, if any, takes index `i`, which keeps the goals valid and reordered up to `i`. */
  lemma ReorderWrite(goals: seq<RGoal>, before: seq<RGoal>, ids: seq<GoalId>, caller: UserId, i: nat, k: int, next: GoalId)
    requires i < |ids| && ValidGoals(goals, next) && ReorderedUpTo(goals, before, ids, caller, i)
    requires k == FindOwnedGoal(goals, ids[i], caller)
    ensures var after := if k >= 0 then goals[k := goals[k].(order := i)] else goals;
      ValidGoals(after, next) && ReorderedUpTo(after, before, ids, caller, i + 1)
  {
    var after := if k >= 0 then goals[k := goals[k].(order := i)] else goals;
    forall m | 0 <= m < |after| ensures after[m] == ReorderedBy(before[m], ids[..i + 1], caller) {
      ReorderedStep(before[m], ids, caller, i);
      if k >= 0 && m != k {
        assert goals[m].id != goals[k].id;
      }
    }
    if k >= 0 {
      assert forall m :: 0 <= m < |after| ==> after[m].id == goals[m].id;
    }
  }

  /**
   * `POST /reorder`: one `findOneAndUpdate({ _id, userId }, { order: index })` per listed id.
   * Ids the caller does not own are skipped without complaint, a repeated id keeps its
   * last index, and every other goal is untouched.
   */
  method ReorderGoals(db: Db, caller: UserId, ids: seq<GoalId>) returns (message: string)
    requires db.Valid()
    modifies db
    ensures db.Valid()
    ensures message == "Goals reordered successfully"
    ensures |db.goals| == |old(db.goals)|
    ensures forall k :: 0 <= k < |db.goals| ==> db.goals[k] == ReorderedBy(old(db.goals[k]), ids, caller)
    ensures db.users == old(db.users) && db.requests == old(db.requests) && db.outbox == old(db.outbox)
  {
    ghost var before := db.goals;
    var goals := db.goals;
    var i := 0;
    while i < |ids|
      invariant 0 <= i <= |ids|
      invariant ReorderedUpTo(goals, before, ids, caller, i)
      invariant ValidGoals(goals, db.nextGoalId)
      modifies {}
    {
      var k := FindOwnedGoal(goals, ids[i], caller);
      ReorderWrite(goals, before, ids, caller, i, k, db.nextGoalId);
      if k >= 0 {
        goals := goals[k := goals[k].(order := i)];
      }
      i := i + 1;
    }
    ReorderedAll(goals, before, ids, caller);
    db.goals := goals;
    message := "Goals reordered successfully";
  }

  /**
   * The fields an update may set; `Some` marks the fields present in the request body.
   * The body is the update document itself, so it may also carry `userId` and hand the
   * goal to another owner.
   */
  datatype GoalPatch = GoalPatch(
    userId: Option<UserId>,
    title: Option<string>,
    status: Option<string>,
    progress: Option<int>,
    order: Option<int>,
    subgoals: Option<seq<Subgoal>>,
    sharedWith: Option<seq<UserId>>)

  /** The goal with the present fields of the patch written over it. */
  function Patched(g: RGoal, p: GoalPatch): (r: RGoal)
    ensures r.id == g.id && r.createdAt == g.createdAt
    ensures r.userId == p.userId.GetOr(g.userId)
    ensures r.title == p.title.GetOr(g.title) && r.progress == p.progress.GetOr(g.progress)
    ensures r.order == p.order.GetOr(g.order) && r.subgoals == p.subgoals.GetOr(g.subgoals)
    ensures r.sharedWith == p.sharedWith.GetOr(g.sharedWith)
    ensures r.status == (if p.status.Some? then p.status else g.status)
  {
    g.(userId := p.userId.GetOr(g.userId),
       title := p.title.GetOr(g.title),
       status := if p.status.Some? then p.status else g.status,
       progress := p.progress.GetOr(g.progress),
       order := p.order.GetOr(g.order),
       subgoals := p.subgoals.GetOr(g.subgoals),
       sharedWith := p.sharedWith.GetOr(g.sharedWith))
  }

  /**
   * `PUT /:id`: `findOneAndUpdate` with update validators, so an empty title is refused
   * (500) before any goal is looked up; a goal the caller does not own answers 404.
   * Friends are told when the request sets the status to completed.
   */
  method UpdateGoal(db: Db, caller: UserId, id: GoalId, patch: GoalPatch, valid: string -> bool) returns (r: Result<RGoal, Failure>)
    requires db.Valid()
    modifies db
    ensures db.Valid()
    ensures db.users == old(db.users) && db.requests == old(db.requests)
    ensures patch.title == Some("") ==> r == Err(UPDATE_FAILED) && db.goals == old(db.goals) && db.outbox == old(db.outbox)
    ensures var i := FindOwnedGoal(old(db.goals), id, caller);
      && (patch.title != Some("") && i < 0 ==>
            r == Err(GOAL_NOT_FOUND) && db.goals == old(db.goals) && db.outbox == old(db.outbox))
      && (patch.title != Some("") && i >= 0 ==>
            && r == Ok(Patched(old(db.goals[i]), patch))
            && db.goals == old(db.goals)[i := r.value]
            && db.outbox == old(db.outbox)
                 + (if patch.status == Some("completed") then Audience(old(db.users), caller, r.value.title, false, valid) else []))
  {
    if patch.title == Some("") {
      return Err(UPDATE_FAILED);
    }
    var i := FindOwnedGoal(db.goals, id, caller);
    if i < 0 {
      return Err(GOAL_NOT_FOUND);
    }
    var goal := Patched(db.goals[i], patch);
    db.goals := db.goals[i := goal];
    if patch.status == Some("completed") && goal.status == Some("completed") {
      NotifyFriendsAboutGoal(db, caller, goal.title, false, valid);
    }
    r := Ok(goal);
  }

  /**
   * A body naming another `userId` hands the goal over: with unique ids, a later
   * request by the former owner no longer finds it, and the new owner does.
   */
  lemma HandedOverGoal(goals: seq<RGoal>, i: nat, caller: UserId, patch: GoalPatch)
    requires UniqueGoalIds(goals) && i < |goals| && goals[i].userId == caller
    requires patch.userId.Some? && patch.userId.value != caller
    ensures var after := goals[i := Patched(goals[i], patch)];
      FindOwnedGoal(after, goals[i].id, caller) == -1
      && FindOwnedGoal(after, goals[i].id, patch.userId.value) == i
  {
    var after := goals[i := Patched(goals[i], patch)];
    forall k | 0 <= k < |after| && k != i ensures after[k].id != goals[i].id {
      assert after[k] == goals[k];
    }
    assert after[i].id == goals[i].id && after[i].userId == patch.userId.value;
    var j := FindOwnedGoal(after, goals[i].id, patch.userId.value);
    assert j != -1;
  }

  /** Cutting one goal out keeps the others' ids unique and leaves none with the id of the one removed. */
  lemma ExciseValid(goals: seq<RGoal>, i: nat, next: GoalId)
    requires i < |goals| && ValidGoals(goals, next)
    ensures var rest := goals[..i] + goals[i + 1..];
      ValidGoals(rest, next) && forall g :: g in rest ==> g.id != goals[i].id
  {
    var rest := goals[..i] + goals[i + 1..];
    assert forall k :: 0 <= k < |rest| ==> rest[k] == goals[if k < i then k else k + 1];
    forall g | g in rest ensures g.id != goals[i].id {
      var k :| 0 <= k < |rest| && rest[k] == g;
    }
  }

  /** `DELETE /:id`: removes the caller's goal with that id, or answers 404 and removes nothing. */
  method DeleteGoal(db: Db, caller: UserId, id: GoalId) returns (r: Result<string, Failure>)
    requires db.Valid()
    modifies db
    ensures db.Valid()
    ensures db.users == old(db.users) && db.requests == old(db.requests) && db.outbox == old(db.outbox)
    ensures var i := FindOwnedGoal(old(db.goals), id, caller);
      && (i < 0 ==> r == Err(GOAL_NOT_FOUND) && db.goals == old(db.goals))
      && (i >= 0 ==> r == Ok("Goal deleted successfully") && db.goals == old(db.goals[..i] + db.goals[i + 1..]))
    ensures r.Ok? ==> forall g :: g in db.goals ==> g.id != id
  {
    var i := FindOwnedGoal(db.goals, id, caller);
    if i < 0 {
      return Err(GOAL_NOT_FOUND);
    }
    ExciseValid(db.goals, i, db.nextGoalId);
    db.goals := db.goals[..i] + db.goals[i + 1..];
    r := Ok("Goal deleted successfully");
  }

  /** `goal.subgoals.id(subgoalId)`: the position of the first subgoal with that id, or -1. */
  function FindSubgoal(sgs: seq<Subgoal>, id: SubgoalId): (i: int)
    ensures -1 <= i < |sgs|
    ensures i >= 0 ==> sgs[i].id == id && forall k :: 0 <= k < i ==> sgs[k].id != id
    ensures i == -1 <==> forall k :: 0 <= k < |sgs| ==> sgs[k].id != id
  {
    if sgs == [] then -1
    else if sgs[0].id == id then 0
    else
      var j := FindSubgoal(sgs[1..], id);
      assert forall k :: 1 <= k < |sgs| ==> sgs[k] == sgs[1..][k - 1];
      if j < 0 then -1 else j + 1
  }

  /** `goal.subgoals.filter(sg => sg.completed).length`. */
  function CompletedCount(sgs: seq<Subgoal>): (c: nat)
    ensures c <= |sgs|
  {
    if sgs == [] then 0 else CompletedCount(sgs[..|sgs| - 1]) + (if sgs[|sgs| - 1].completed then 1 else 0)
  }

  lemma {:induction false} CompletedCountExtremes(sgs: seq<Subgoal>)
    ensures CompletedCount(sgs) == |sgs| <==> forall k :: 0 <= k < |sgs| ==> sgs[k].completed
    ensures CompletedCount(sgs) == 0 <==> forall k :: 0 <= k < |sgs| ==> !sgs[k].completed
  {
    if sgs != [] {
      var front := sgs[..|sgs| - 1];
      CompletedCountExtremes(front);
      assert forall k :: 0 <= k < |front| ==> front[k] == sgs[k];
    }
  }

  /**
   * `Math.round((completed / total) * 100)` in exact arithmetic: the integer nearest to
   * `100 * completed / total`, a half rounded up.
   */
  function RoundPercent(completed: nat, total: nat): (p: int)
    requires total > 0
    ensures -(total as int) <= 200 * completed - 2 * total * p < total
  {
    var p := (200 * completed + total) / (2 * total);
    assert (200 * completed + total) % (2 * total) == 200 * completed + total - 2 * total * p;
    p
  }

  /** The percentage is between 0 and 100; nothing done gives 0 and everything done gives 100. */
  lemma RoundPercentRange(completed: nat, total: nat)
    requires total > 0 && completed <= total
    ensures 0 <= RoundPercent(completed, total) <= 100
    ensures completed == 0 ==> RoundPercent(completed, total) == 0
    ensures completed == total ==> RoundPercent(completed, total) == 100
  {
    var p := RoundPercent(completed, total);
    if p < 0 {
      MulLe(2 * total, p, -1);
    }
    if p > 100 {
      MulLe(2 * total, 101, p);
    }
    if completed == 0 && p > 0 {
      MulLe(2 * total, 1, p);
    }
    if completed == total && p < 100 {
      MulLe(2 * total, p, 99);
    }
  }

  lemma MulLe(a: nat, b: int, c: int)
    requires b <= c
    ensures a * b <= a * c
  {
    assert a * c - a * b == a * (c - b);
  }

  /** The goal after a toggle of subgoal `j` at time `now`. */
  function Toggled(g: RGoal, j: nat, now: Timestamp): (r: RGoal)
    requires j < |g.subgoals|
    ensures |r.subgoals| == |g.subgoals|
    ensures r.subgoals[j].id == g.subgoals[j].id && r.subgoals[j].title == g.subgoals[j].title
    ensures r.subgoals[j].completed == !g.subgoals[j].completed
    ensures r.subgoals[j].completedAt == (if r.subgoals[j].completed then Some(now) else None)
    ensures forall k :: 0 <= k < |g.subgoals| && k != j ==> r.subgoals[k] == g.subgoals[k]
    ensures r.progress == RoundPercent(CompletedCount(r.subgoals), |r.subgoals|)
    ensures r == g.(subgoals := r.subgoals, progress := r.progress)
  {
    var sg := g.subgoals[j];
    var flipped := sg.(completed := !sg.completed, completedAt := if !sg.completed then Some(now) else None);
    var sgs := g.subgoals[j := flipped];
    g.(subgoals := sgs, progress := RoundPercent(CompletedCount(sgs), |sgs|))
  }

  /**
   * `PATCH /:goalId/subgoals/:subgoalId/toggle`: flips the subgoal, recomputes the
   * percentage, saves, and tells friends only when the subgoal went from open to done.
   */
  method ToggleSubgoal(db: Db, caller: UserId, goalId: GoalId, subgoalId: SubgoalId, now: Timestamp, valid: string -> bool)
    returns (r: Result<RGoal, Failure>)
    requires db.Valid()
    modifies db
    ensures db.Valid()
    ensures db.users == old(db.users) && db.requests == old(db.requests)
    ensures var i := FindOwnedGoal(old(db.goals), goalId, caller);
      && (i < 0 ==> r == Err(GOAL_NOT_FOUND) && db.goals == old(db.goals) && db.outbox == old(db.outbox))
      && (i >= 0 ==>
            var g := old(db.goals[i]);
            var j := FindSubgoal(g.subgoals, subgoalId);
            && (j < 0 ==> r == Err(SUBGOAL_NOT_FOUND) && db.goals == old(db.goals) && db.outbox == old(db.outbox))
            && (j >= 0 ==>
                  && r == Ok(Toggled(g, j, now))
                  && db.goals == old(db.goals)[i := r.value]
                  && db.outbox == old(db.outbox)
                       + (if !g.subgoals[j].completed
                          then Audience(old(db.users), caller, g.title + " - " + g.subgoals[j].title, true, valid)
                          else [])))
  {
    var i := FindOwnedGoal(db.goals, goalId, caller);
    if i < 0 {
      return Err(GOAL_NOT_FOUND);
    }
    var goal := db.goals[i];
    var j := FindSubgoal(goal.subgoals, subgoalId);
    if j < 0 {
      return Err(SUBGOAL_NOT_FOUND);
    }
    var wasCompleted := goal.subgoals[j].completed;
    var updated := Toggled(goal, j, now);
    db.goals := db.goals[i := updated];
    if !wasCompleted && updated.subgoals[j].completed {
      NotifyFriendsAboutGoal(db, caller, goal.title + " - " + goal.subgoals[j].title, true, valid);
    }
    r := Ok(updated);
  }

  /** Toggling the same subgoal twice restores its completion and the percentage, and clears its time stamp. */
  lemma ToggleTwice(g: RGoal, j: nat, t1: Timestamp, t2: Timestamp)
    requires j < |g.subgoals|
    ensures var twice := Toggled(Toggled(g, j, t1), j, t2);
      && twice.subgoals[j].completed == g.subgoals[j].completed
      && (forall k :: 0 <= k < |g.subgoals| && k != j ==> twice.subgoals[k] == g.subgoals[k])
      && (g.subgoals[j].completed ==> twice.subgoals[j].completedAt == Some(t2))
      && (!g.subgoals[j].completed ==> twice.subgoals[j].completedAt == None)
  {
  }
}
