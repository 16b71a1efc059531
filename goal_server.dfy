/**
 * The goal and push-token handlers of `backend/server.js` as one object over the
 * `goals` and `pushtokens` collections, plus the outbox the daily reminder job
 * hands its messages to. Every handler is one atomic step; the caller's user id
 * comes from the authentication middleware.
 */
module GoalServer {
  import opened Wrappers
  import opened GoalModel
  import opened Completion
  import opened Sorting
  import opened GoalStore
  import opened DailyReminder

  /** An error response: the HTTP status and the `error` text. */
  datatype Failure = Failure(status: int, error: string)

  const GOAL_NOT_FOUND := Failure(404, "Goal not found")
  const SUB_ITEM_NOT_FOUND := Failure(404, "Sub-item not found")
  const INVALID_GOAL_IDS := Failure(400, "Invalid goal IDs")
  const INVALID_PUSH_TOKEN := Failure(400, "Invalid Expo push token")

  /** A save refused by validation answers 400 with the validation message. */
  function ValidationFailure(e: ValidationError): (f: Failure)
    ensures f.status == 400
  {
    match e
    case Required(path) => Failure(400, "Goal validation failed: " + path + " is required")
    case NotInEnum(path) => Failure(400, "Goal validation failed: " + path + " is not a valid enum value")
  }

  /** The answer to a push-token registration that succeeds. */
  datatype TokenOutcome = AlreadyRegistered | Registered

  /** The paths a goal update body may carry; `Object.assign` copies those present. */
  datatype GoalPatch = GoalPatch(
    userId: Option<UserId>,
    title: Option<string>,
    goalType: Option<GoalType>,
    resetFrequency: Option<Option<Frequency>>,
    lastResetDate: Option<Option<Timestamp>>,
    subItems: Option<seq<SubItemBody>>,
    isCompleted: Option<bool>,
    priority: Option<int>,
    order: Option<int>,
    color: Option<string>)

  /** The scalar paths of `Object.assign(goal, body)`: each present one is copied, each absent one kept. */
  function AssignScalars(g: Goal, p: GoalPatch): (r: Goal)
    ensures r.id == g.id && r.createdAt == g.createdAt && r.updatedAt == g.updatedAt && r.subItems == g.subItems
    ensures (p.userId.None? ==> r.userId == g.userId) && (p.userId.Some? ==> r.userId == p.userId.value)
    ensures (p.title.None? ==> r.title == g.title) && (p.title.Some? ==> r.title == p.title.value)
    ensures (p.goalType.None? ==> r.goalType == g.goalType) && (p.goalType.Some? ==> r.goalType == p.goalType.value)
    ensures (p.resetFrequency.None? ==> r.resetFrequency == g.resetFrequency)
            && (p.resetFrequency.Some? ==> r.resetFrequency == p.resetFrequency.value)
    ensures (p.lastResetDate.None? ==> r.lastResetDate == g.lastResetDate)
            && (p.lastResetDate.Some? ==> r.lastResetDate == p.lastResetDate.value)
    ensures (p.isCompleted.None? ==> r.isCompleted == g.isCompleted)
            && (p.isCompleted.Some? ==> r.isCompleted == p.isCompleted.value)
    ensures (p.priority.None? ==> r.priority == g.priority) && (p.priority.Some? ==> r.priority == p.priority.value)
    ensures (p.order.None? ==> r.order == g.order) && (p.order.Some? ==> r.order == p.order.value)
    ensures (p.color.None? ==> r.color == g.color) && (p.color.Some? ==> r.color == p.color.value)
  {
    g.(userId := p.userId.GetOr(g.userId), title := p.title.GetOr(g.title),
       goalType := p.goalType.GetOr(g.goalType),
       resetFrequency := p.resetFrequency.GetOr(g.resetFrequency),
       lastResetDate := p.lastResetDate.GetOr(g.lastResetDate),
       isCompleted := p.isCompleted.GetOr(g.isCompleted), priority := p.priority.GetOr(g.priority),
       order := p.order.GetOr(g.order), color := p.color.GetOr(g.color))
  }

  /**
   * `Object.assign(goal, body)`: the scalar paths as `AssignScalars` copies them, and a
   * replacement `subItems` array cast element by element, which may fail.
   */
  function AssignGoal(g: Goal, p: GoalPatch): (r: Result<Goal, ValidationError>)
    ensures r.Ok? <==> p.subItems.None? || CastSubItems(p.subItems.value).Ok?
    ensures r.Ok? && p.subItems.None? ==> r.value == AssignScalars(g, p)
    ensures r.Ok? && p.subItems.Some? ==>
      r.value == AssignScalars(g, p).(subItems := CastSubItems(p.subItems.value).value)
    ensures r.Err? ==> r.error == CastSubItems(p.subItems.value).error
  {
    var scalars := AssignScalars(g, p);
    match p.subItems
    case None => Ok(scalars)
    case Some(bodies) =>
      match CastSubItems(bodies)
      case Err(e) => Err(e)
      case Ok(items) => Ok(scalars.(subItems := items))
  }

  /** `Object.assign(subItem, body)` on an existing sub-item. */
  function AssignSubItem(s: SubItem, p: SubItemBody): (r: SubItem)
    ensures p == SubItemBody(None, None, None, None, None, None, None) ==> r == s
    ensures (p.id.None? ==> r.id == s.id) && (p.id.Some? ==> r.id == p.id.value)
    ensures (p.title.None? ==> r.title == s.title) && (p.title.Some? ==> r.title == p.title.value)
    ensures (p.itemType.None? ==> r.itemType == s.itemType) && (p.itemType.Some? ==> r.itemType == p.itemType.value)
    ensures (p.isChecked.None? ==> r.isChecked == s.isChecked) && (p.isChecked.Some? ==> r.isChecked == p.isChecked.value)
    ensures (p.currentValue.None? ==> r.currentValue == s.currentValue)
            && (p.currentValue.Some? ==> r.currentValue == p.currentValue.value)
    ensures (p.targetValue.None? ==> r.targetValue == s.targetValue)
            && (p.targetValue.Some? ==> r.targetValue == p.targetValue.value)
    ensures (p.order.None? ==> r.order == s.order) && (p.order.Some? ==> r.order == p.order.value)
  {
    SubItem(p.id.GetOr(s.id), p.title.GetOr(s.title), p.itemType.GetOr(s.itemType), p.isChecked.GetOr(s.isChecked),
            p.currentValue.GetOr(s.currentValue), p.targetValue.GetOr(s.targetValue), p.order.GetOr(s.order))
  }

  /** `goal.subItems.find(item => item.id === sid)`: the first position with that id, or -1. */
  function FindItem(items: seq<SubItem>, sid: string): (k: int)
    ensures -1 <= k < |items|
    ensures k >= 0 ==> items[k].id == sid && forall j :: 0 <= j < k ==> items[j].id != sid
    ensures k == -1 <==> forall j :: 0 <= j < |items| ==> items[j].id != sid
  {
    if items == [] then -1
    else if items[0].id == sid then 0
    else
      var j := FindItem(items[1..], sid);
      assert forall i :: 1 <= i < |items| ==> items[i] == items[1..][i - 1];
      if j < 0 then -1 else j + 1
  }

  /** The value of `lastResetDate` at creation: now for a continuous goal, otherwise null. */
  function CreationResetDate(body: GoalBody, now: Timestamp): Option<Timestamp> {
    if body.goalType == Some(Continuous) then Some(now) else None
  }

  /** The sort `{ order: 1 }`. */
  function OrderRank(g: Goal): Rank {
    Rank(g.order, 0)
  }

  /** The effect of `checkAndResetGoal` on the goals that `sel` picks out. */
  function ReconcileWhere(goals: seq<Goal>, sel: Goal -> bool, now: Timestamp, cal: Calendar): (r: seq<Goal>)
    ensures |r| == |goals|
  {
    seq(|goals|, k requires 0 <= k < |goals| => if sel(goals[k]) then Reconcile(goals[k], now, cal) else goals[k])
  }

  /** The goal after `Goal.findByIdAndUpdate(id, { order: i })` for every position `i` of `ids`. */
  function Reordered(g: Goal, ids: seq<GoalId>): Goal {
    if g.id in ids then g.(order := PositionOf(ids, g.id)) else g
  }

  class Server {
    var goals: seq<Goal>
    var tokens: seq<TokenDoc>
    var nextId: GoalId
    var outbox: seq<PushMessage>

    /** Goal ids are unique and below the next fresh id, stored goals pass the schema, tokens are unique. */
    ghost predicate Valid()
      reads this
    {
      && DistinctIds(goals)
      && (forall k :: 0 <= k < |goals| ==> goals[k].id < nextId && ValidGoal(goals[k]))
      && DistinctTokens(tokens)
    }

    constructor ()
      ensures Valid()
      ensures goals == [] && tokens == [] && outbox == []
    {
      goals := [];
      tokens := [];
      nextId := 0;
      outbox := [];
    }

    /**
     * `POST /api/goals`: the new goal's `order` is the caller's goal count before the
     * insert, its `lastResetDate` is now exactly for a continuous goal, and a body the
     * schema refuses answers 400 and inserts nothing.
     */
    method CreateGoal(caller: UserId, body: GoalBody, now: Timestamp) returns (r: Result<Goal, Failure>)
      requires Valid()
      modifies this
      ensures Valid()
      ensures tokens == old(tokens) && outbox == old(outbox)
      ensures var made := NewGoal(body, old(nextId), caller, |OwnedBy(old(goals), caller)|, CreationResetDate(body, now), now);
        && (made.Ok? ==> r == Ok(made.value) && goals == old(goals) + [made.value] && nextId == old(nextId) + 1)
        && (made.Err? ==> r == Err(ValidationFailure(made.error)) && goals == old(goals) && nextId == old(nextId))
      ensures r.Ok? ==> && r.value.userId == caller && r.value.order == |OwnedBy(old(goals), caller)|
                        && (r.value.lastResetDate == Some(now) <==> body.goalType == Some(Continuous))
                        && (body.goalType != Some(Continuous) ==> r.value.lastResetDate.None?)
    {
      var count := |OwnedBy(goals, caller)|;
      var made := NewGoal(body, nextId, caller, count, CreationResetDate(body, now), now);
      match made
      case Err(e) =>
        r := Err(ValidationFailure(e));
      case Ok(g) =>
        goals := goals + [g];
        nextId := nextId + 1;
        r := Ok(g);
    }

    /** Runs `checkAndResetGoal` on every goal `sel` picks out, one document at a time. */
    method ResetGoals(sel: Goal -> bool, now: Timestamp, cal: Calendar)
      requires Valid()
      modifies this
      ensures Valid()
      ensures goals == ReconcileWhere(old(goals), sel, now, cal)
      ensures tokens == old(tokens) && nextId == old(nextId) && outbox == old(outbox)
    {
      ghost var before := goals;
      var i := 0;
      while i < |goals|
        invariant 0 <= i <= |goals| == |before|
        invariant forall k :: 0 <= k < i ==> goals[k] == ReconcileWhere(before, sel, now, cal)[k]
        invariant forall k :: i <= k < |goals| ==> goals[k] == before[k]
        invariant tokens == old(tokens) && nextId == old(nextId) && outbox == old(outbox)
      {
        if sel(goals[i]) {
          var _, g := CheckAndResetGoal(goals[i], now, cal);
          goals := goals[i := g];
        }
        i := i + 1;
      }
      assert goals == ReconcileWhere(before, sel, now, cal);
      forall k | 0 <= k < |goals| ensures goals[k].id == before[k].id && ValidGoal(goals[k]) {
        ReconcileEffect(before[k], now, cal);
        ReconcileValid(before[k], now, cal);
      }
    }

    /**
     * `GET /api/goals`: every goal of the caller is brought up to date by
     * `checkAndResetGoal`, and the answer is exactly the caller's goals, by `order`.
     */
    method GetGoals(caller: UserId, now: Timestamp, cal: Calendar) returns (list: seq<Goal>)
      requires Valid()
      modifies this
      ensures Valid()
      ensures goals == ReconcileWhere(old(goals), (g: Goal) => g.userId == caller, now, cal)
      ensures list == Sort(OwnedBy(goals, caller), OrderRank)
      ensures forall g :: g in list <==> g in goals && g.userId == caller
      ensures forall i, j :: 0 <= i < j < |list| ==> list[i].order <= list[j].order
      ensures tokens == old(tokens) && nextId == old(nextId) && outbox == old(outbox)
    {
      ResetGoals((g: Goal) => g.userId == caller, now, cal);
      list := Sort(OwnedBy(goals, caller), OrderRank);
      SortPermutesAndOrders(OwnedBy(goals, caller), OrderRank);
      forall g ensures g in list <==> g in goals && g.userId == caller {
        SortMembers(OwnedBy(goals, caller), OrderRank, g);
      }
      assert forall i, j :: 0 <= i < j < |list| ==> RankLe(OrderRank(list[i]), OrderRank(list[j]));
    }

    /** `GET /api/goals/:id`: a goal the caller does not own answers 404; otherwise it is reset if due. */
    method GetGoal(caller: UserId, id: GoalId, now: Timestamp, cal: Calendar) returns (r: Result<Goal, Failure>)
      requires Valid()
      modifies this
      ensures Valid()
      ensures var i := FindOwned(old(goals), id, caller);
        && (i < 0 ==> r == Err(GOAL_NOT_FOUND) && goals == old(goals))
        && (i >= 0 ==> r == Ok(Reconcile(old(goals)[i], now, cal)) && goals == old(goals)[i := r.value])
      ensures tokens == old(tokens) && nextId == old(nextId) && outbox == old(outbox)
    {
      var i := FindOwned(goals, id, caller);
      if i < 0 {
        return Err(GOAL_NOT_FOUND);
      }
      var _, g := CheckAndResetGoal(goals[i], now, cal);
      ReconcileEffect(goals[i], now, cal);
      ReconcileValid(goals[i], now, cal);
      goals := goals[i := g];
      r := Ok(g);
    }

    /**
     * `PUT /api/goals/:id`: the body's paths are copied onto the caller's goal,
     * `isCompleted` is recomputed from the sub-items whatever the body says, and the
     * goal is saved; an unknown goal answers 404, a goal the schema refuses 400, and
     * neither changes anything.
     */
    method UpdateGoal(caller: UserId, id: GoalId, patch: GoalPatch, now: Timestamp) returns (r: Result<Goal, Failure>)
      requires Valid()
      modifies this
      ensures Valid()
      ensures var i := FindOwned(old(goals), id, caller);
        && (i < 0 ==> r == Err(GOAL_NOT_FOUND))
        && (i >= 0 ==> match AssignGoal(old(goals)[i], patch)
              case Err(e) => r == Err(ValidationFailure(e))
              case Ok(a) =>
                var c := a.(isCompleted := CalculateCompletion(a.subItems));
                if ValidGoal(c) then r == Ok(PreSave(c, now)) && goals == old(goals)[i := r.value]
                else r == Err(ValidationFailure(GoalError(c).value)))
      ensures r.Err? ==> goals == old(goals)
      ensures r.Ok? ==> r.value.id == id && r.value.isCompleted == CalculateCompletion(r.value.subItems)
                        && r.value.updatedAt == now
      ensures tokens == old(tokens) && nextId == old(nextId) && outbox == old(outbox)
    {
      var i := FindOwned(goals, id, caller);
      if i < 0 {
        return Err(GOAL_NOT_FOUND);
      }
      match AssignGoal(goals[i], patch)
      case Err(e) =>
        r := Err(ValidationFailure(e));
      case Ok(a) =>
        var c := a.(isCompleted := CalculateCompletion(a.subItems));
        match GoalError(c)
        case Some(e) =>
          r := Err(ValidationFailure(e));
        case None =>
          var saved := PreSave(c, now);
          goals := goals[i := saved];
          r := Ok(saved);
    }

    /**
     * `PUT /api/goals/:goalId/subitems/:subItemId`: the body is copied onto the first
     * sub-item with that id, the goal's `isCompleted` is recomputed, and the goal is
     * saved. An unknown goal or sub-item answers 404 and changes nothing.
     */
    method UpdateSubItem(caller: UserId, goalId: GoalId, subItemId: string, patch: SubItemBody, now: Timestamp)
      returns (r: Result<Goal, Failure>)
      requires Valid()
      modifies this
      ensures Valid()
      ensures var i := FindOwned(old(goals), goalId, caller);
        && (i < 0 ==> r == Err(GOAL_NOT_FOUND))
        && (i >= 0 ==>
              var items := old(goals)[i].subItems;
              var k := FindItem(items, subItemId);
              && (k < 0 ==> r == Err(SUB_ITEM_NOT_FOUND))
              && (k >= 0 ==>
                    var items' := items[k := AssignSubItem(items[k], patch)];
                    var c := old(goals)[i].(subItems := items', isCompleted := CalculateCompletion(items'));
                    if ValidGoal(c) then r == Ok(PreSave(c, now)) && goals == old(goals)[i := r.value]
                    else r == Err(ValidationFailure(GoalError(c).value))))
      ensures r.Err? ==> goals == old(goals)
      ensures r.Ok? ==> r.value.id == goalId && r.value.isCompleted == CalculateCompletion(r.value.subItems)
      ensures tokens == old(tokens) && nextId == old(nextId) && outbox == old(outbox)
    {
      var i := FindOwned(goals, goalId, caller);
      if i < 0 {
        return Err(GOAL_NOT_FOUND);
      }
      var g := goals[i];
      var k := FindItem(g.subItems, subItemId);
      if k < 0 {
        return Err(SUB_ITEM_NOT_FOUND);
      }
      var items := g.subItems[k := AssignSubItem(g.subItems[k], patch)];
      var c := g.(subItems := items, isCompleted := CalculateCompletion(items));
      match GoalError(c)
      case Some(e) =>
        r := Err(ValidationFailure(e));
      case None =>
        var saved := PreSave(c, now);
        goals := goals[i := saved];
        r := Ok(saved);
    }

    /** `DELETE /api/goals/:id`: removes exactly the caller's goal with that id; 404 when there is none. */
    method DeleteGoal(caller: UserId, id: GoalId) returns (r: Result<string, Failure>)
      requires Valid()
      modifies this
      ensures Valid()
      ensures var i := FindOwned(old(goals), id, caller);
        && (i < 0 ==> r == Err(GOAL_NOT_FOUND) && goals == old(goals))
        && (i >= 0 ==> r == Ok("Goal deleted successfully") && goals == old(goals)[..i] + old(goals)[i + 1..])
      ensures r.Ok? ==> forall g :: g in goals <==> g in old(goals) && g.id != id
      ensures tokens == old(tokens) && nextId == old(nextId) && outbox == old(outbox)
    {
      var i := FindOwned(goals, id, caller);
      if i < 0 {
        return Err(GOAL_NOT_FOUND);
      }
      RemoveAtRemovesId(goals, i);
      goals := goals[..i] + goals[i + 1..];
      r := Ok("Goal deleted successfully");
    }

    /**
     * `POST /api/goals/reorder`: all or nothing. Unless the ids are distinct and all name
     * goals of the caller, it answers 400 and writes nothing; otherwise the goal listed
     * at position `i` gets `order = i`, no other goal changes (and no save hook runs),
     * and the answer is the caller's goals by `order`.
     */
    method ReorderGoals(caller: UserId, orderedIds: seq<GoalId>) returns (r: Result<seq<Goal>, Failure>)
      requires Valid()
      modifies this
      ensures Valid()
      ensures r.Ok? <==> Distinct(orderedIds) && forall j :: 0 <= j < |orderedIds| ==> FindOwned(old(goals), orderedIds[j], caller) >= 0
      ensures r.Err? ==> r == Err(INVALID_GOAL_IDS) && goals == old(goals)
      ensures r.Ok? ==> |goals| == |old(goals)| && forall k :: 0 <= k < |goals| ==> goals[k] == Reordered(old(goals)[k], orderedIds)
      ensures r.Ok? ==> r.value == Sort(OwnedBy(goals, caller), OrderRank)
      ensures tokens == old(tokens) && nextId == old(nextId) && outbox == old(outbox)
    {
      ReorderAccepted(goals, orderedIds, caller);
      if MatchCount(goals, orderedIds, caller) != |orderedIds| {
        return Err(INVALID_GOAL_IDS);
      }
      forall j | 0 <= j < |orderedIds| ensures FindById(goals, orderedIds[j]) >= 0 {
        var k := FindOwned(goals, orderedIds[j], caller);
        assert goals[k].id == orderedIds[j];
      }
      WriteOrders(orderedIds);
      r := Ok(Sort(OwnedBy(goals, caller), OrderRank));
    }

    /** The loop `for (i ...) Goal.findByIdAndUpdate(orderedIds[i], { order: i })`. */
    method WriteOrders(ids: seq<GoalId>)
      requires Valid()
      requires Distinct(ids) && forall j :: 0 <= j < |ids| ==> FindById(goals, ids[j]) >= 0
      modifies this
      ensures Valid()
      ensures |goals| == |old(goals)| && forall k :: 0 <= k < |goals| ==> goals[k] == Reordered(old(goals)[k], ids)
      ensures tokens == old(tokens) && nextId == old(nextId) && outbox == old(outbox)
    {
      ghost var before := goals;
      var i := 0;
      while i < |ids|
        invariant 0 <= i <= |ids|
        invariant |goals| == |before|
        invariant forall k :: 0 <= k < |goals| ==> goals[k] == Reordered(before[k], ids[..i])
        invariant tokens == old(tokens) && nextId == old(nextId) && outbox == old(outbox)
      {
        var x := ids[i];
        ghost var k0 := FindById(before, x);
        assert goals[k0].id == x;
        var k := FindById(goals, x);
        assert goals[k].id == before[k].id;
        goals := goals[k := goals[k].(order := i)];
        ReorderStep(before, ids, i);
        i := i + 1;
      }
      assert ids[..|ids|] == ids;
      forall k | 0 <= k < |goals| ensures goals[k].id == before[k].id && ValidGoal(goals[k]) {
        assert ValidGoal(before[k]);
      }
    }

    /**
     * `POST /api/push-token`: an invalid token answers 400; a token the caller already
     * holds is left as it is; otherwise the token is taken from every other user and
     * bound to the caller alone.
     */
    method RegisterPushToken(caller: UserId, token: string, isExpoPushToken: string -> bool)
      returns (r: Result<TokenOutcome, Failure>)
      requires Valid()
      modifies this
      ensures Valid()
      ensures !isExpoPushToken(token) ==> r == Err(INVALID_PUSH_TOKEN) && tokens == old(tokens)
      ensures isExpoPushToken(token) && TokenDoc(token, caller) in old(tokens) ==>
                r == Ok(AlreadyRegistered) && tokens == old(tokens)
      ensures isExpoPushToken(token) && TokenDoc(token, caller) !in old(tokens) ==>
                r == Ok(Registered) && tokens == RemoveForeign(old(tokens), token, caller) + [TokenDoc(token, caller)]
      ensures r.Ok? ==> TokenDoc(token, caller) in tokens
                        && forall d :: d in tokens && d.token == token ==> d.userId == caller
      ensures forall d: TokenDoc :: d.token != token ==> (d in tokens <==> d in old(tokens))
      ensures goals == old(goals) && nextId == old(nextId) && outbox == old(outbox)
    {
      if !isExpoPushToken(token) {
        return Err(INVALID_PUSH_TOKEN);
      }
      if TokenDoc(token, caller) in tokens {
        forall d | d in tokens && d.token == token ensures d.userId == caller {
          var i :| 0 <= i < |tokens| && tokens[i] == d;
          var j :| 0 <= j < |tokens| && tokens[j] == TokenDoc(token, caller);
          assert i == j;
        }
        return Ok(AlreadyRegistered);
      }
      var kept := RemoveForeign(tokens, token, caller);
      assert forall d :: d in kept ==> d.token != token;
      tokens := kept + [TokenDoc(token, caller)];
      r := Ok(Registered);
    }

    /**
     * The daily reminder job: the messages are composed from the goals as they stand,
     * the incomplete goals of every user who received a candidate list are brought up
     * to date by `checkAndResetGoal`, and the messages are handed to the transport.
     * `users` is the set of user ids that still exist.
     */
    method SendDailyNotification(now: Timestamp, cal: Calendar, users: set<UserId>, isExpoPushToken: string -> bool)
      requires Valid()
      modifies this
      ensures Valid()
      ensures outbox == old(outbox) + DailyMessages(old(goals), old(tokens), users, isExpoPushToken)
      ensures var us := UserOrder(old(tokens), users);
        goals == ReconcileWhere(old(goals), (g: Goal) => g.userId in us && !g.isCompleted, now, cal)
      ensures tokens == old(tokens) && nextId == old(nextId)
    {
      var messages := ComposeDailyMessages(goals, tokens, users, isExpoPushToken);
      var us := UserOrder(tokens, users);
      ResetGoals((g: Goal) => g.userId in us && !g.isCompleted, now, cal);
      if |messages| > 0 {
        outbox := outbox + messages;
      }
    }

    /**
     * The job as the source has it: grouping throws at the first token document
     * (see `GroupAsWritten`), the catch ends the job, and no goal is reset and no
     * message sent. Without token documents it is the job above.
     */
    method SendDailyNotificationAsWritten(now: Timestamp, cal: Calendar, users: set<UserId>, isExpoPushToken: string -> bool)
      requires Valid()
      modifies this
      ensures Valid()
      ensures old(tokens) != [] ==> unchanged(this)
      ensures outbox == old(outbox) + DailyMessagesAsWritten(old(goals), old(tokens), users, isExpoPushToken)
      ensures tokens == old(tokens) && nextId == old(nextId)
    {
      var grouped := GroupAsWritten(tokens, users);
      if grouped.Err? {
        return;
      }
      SendDailyNotification(now, cal, users, isExpoPushToken);
    }
  }

  /** One pass of the reorder loop when the ids are distinct. */
  lemma ReorderStep(goals: seq<Goal>, ids: seq<GoalId>, i: nat)
    requires DistinctIds(goals) && Distinct(ids) && i < |ids|
    ensures forall k :: 0 <= k < |goals| ==>
      Reordered(goals[k], ids[..i + 1]) ==
        if goals[k].id == ids[i] then Reordered(goals[k], ids[..i]).(order := i) else Reordered(goals[k], ids[..i])
  {
    var pre := ids[..i];
    var post := ids[..i + 1];
    assert post == pre + [ids[i]];
    assert ids[i] !in pre;
    forall k | 0 <= k < |goals|
      ensures Reordered(goals[k], post) ==
        if goals[k].id == ids[i] then Reordered(goals[k], pre).(order := i) else Reordered(goals[k], pre)
    {
      var x := goals[k].id;
      if x == ids[i] {
        assert PositionOf(post, x) == i;
      } else if x in pre {
        assert PositionOf(post, x) == PositionOf(pre, x);
      }
    }
  }
}
