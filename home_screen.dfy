/**
 * The goal list state of `frontend/screens/HomeScreen.js`: the drag handlers
 * for goals and for a goal's sub-items, the sub-item update, the in-place sort
 * of the state before it is listed, and the first name in the greeting.
 *
 * The outcome of each request to the server is a parameter: whether it
 * succeeded and, where a failure triggers `loadGoals`, what that reload
 * returned (None when it failed too and only an alert was shown).
 */
module HomeScreen {
  import opened Wrappers
  import opened JsText
  import opened Sorting
  import opened GoalModel
  import GoalStore
  import GoalServer

  /** What `handleReorderGoals` computes: the re-indexed goals and the ids it sends. */
  datatype GoalsReorder = GoalsReorder(goals: seq<Goal>, orderedIds: seq<GoalId>)

  /** `data.map((goal, index) => ({ ...goal, order: index }))` and `reorderedGoals.map(g => g._id)`. */
  function ReorderGoals(data: seq<Goal>): (r: GoalsReorder)
    ensures |r.goals| == |data| && |r.orderedIds| == |data|
    ensures forall i :: 0 <= i < |data| ==> r.goals[i] == data[i].(order := i)
    ensures forall i :: 0 <= i < |data| ==> r.orderedIds[i] == data[i].id
  {
    var goals := seq(|data|, i requires 0 <= i < |data| => data[i].(order := i));
    GoalsReorder(goals, seq(|data|, i requires 0 <= i < |data| => goals[i].id))
  }

  /**
   * When the dragged goals have distinct ids, the server's reordering by the sent ids
   * gives every goal the order the screen already shows for it.
   */
  lemma ReorderAgreesWithServer(data: seq<Goal>)
    requires GoalStore.DistinctIds(data)
    ensures var r := ReorderGoals(data);
      forall i :: 0 <= i < |data| ==> GoalServer.Reordered(data[i], r.orderedIds) == r.goals[i]
  {
    var r := ReorderGoals(data);
    assert GoalStore.Distinct(r.orderedIds);
    forall i | 0 <= i < |data| ensures GoalServer.Reordered(data[i], r.orderedIds) == r.goals[i] {
      GoalStore.PositionOfDistinct(r.orderedIds, i);
      assert data[i].id in r.orderedIds;
    }
  }

  /** Listing the re-indexed goals sorted by `order` shows exactly the dragged sequence. */
  lemma ReorderedGoalsListAsDragged(data: seq<Goal>)
    ensures SortedBy(ReorderGoals(data).goals, GoalServer.OrderRank)
    ensures Sort(ReorderGoals(data).goals, GoalServer.OrderRank) == ReorderGoals(data).goals
  {
    var r := ReorderGoals(data).goals;
    assert forall i, j :: 0 <= i < j < |r| ==> RankLe(GoalServer.OrderRank(r[i]), GoalServer.OrderRank(r[j]));
    SortOfSorted(r, GoalServer.OrderRank);
  }

  /** `subItems.map(si => si.id === updated.id ? updated : si)`. */
  function ReplaceSubItem(items: seq<SubItem>, updated: SubItem): (r: seq<SubItem>)
    ensures |r| == |items|
    ensures forall k :: 0 <= k < |items| ==> r[k] == if items[k].id == updated.id then updated else items[k]
  {
    seq(|items|, k requires 0 <= k < |items| => if items[k].id == updated.id then updated else items[k])
  }

  /** With unique ids, putting the previous version back undoes a replacement. */
  lemma ReplaceUndone(items: seq<SubItem>, j: nat, updated: SubItem)
    requires j < |items| && items[j].id == updated.id
    requires forall a, b :: 0 <= a < b < |items| ==> items[a].id != items[b].id
    ensures ReplaceSubItem(ReplaceSubItem(items, updated), items[j]) == items
    ensures ReplaceSubItem(items, updated)[j] == updated
  {
    var once := ReplaceSubItem(items, updated);
    var twice := ReplaceSubItem(once, items[j]);
    forall k | 0 <= k < |items| ensures twice[k] == items[k] {
      if k != j {
        assert items[k].id != items[j].id;
      }
    }
  }

  /** `goals.map(g => g._id === goalId ? changed : g)`. */
  function WithGoal(goals: seq<Goal>, goalId: GoalId, changed: Goal): (r: seq<Goal>)
    ensures |r| == |goals|
    ensures forall k :: 0 <= k < |goals| ==> r[k] == if goals[k].id == goalId then changed else goals[k]
  {
    seq(|goals|, k requires 0 <= k < |goals| => if goals[k].id == goalId then changed else goals[k])
  }

  /**
   * The list after a goal's sub-items become `items`: the goal `goals.find` picks
   * (the first with that id) with its `subItems` replaced, or no change when there is none.
   */
  function WithSubItems(goals: seq<Goal>, goalId: GoalId, items: seq<SubItem>): (r: seq<Goal>)
    ensures |r| == |goals|
    ensures GoalStore.FindById(goals, goalId) == -1 ==> r == goals
    ensures forall k :: 0 <= k < |goals| && goals[k].id != goalId ==> r[k] == goals[k]
    ensures forall k :: 0 <= k < |goals| && goals[k].id == goalId ==>
      r[k] == goals[GoalStore.FindById(goals, goalId)].(subItems := items)
  {
    var j := GoalStore.FindById(goals, goalId);
    if j < 0 then goals else WithGoal(goals, goalId, goals[j].(subItems := items))
  }

  /** With unique ids, only the matching goal changes, and only in its sub-items. */
  lemma WithSubItemsChangesOneGoal(goals: seq<Goal>, goalId: GoalId, items: seq<SubItem>, j: nat)
    requires GoalStore.DistinctIds(goals) && j < |goals| && goals[j].id == goalId
    ensures var r := WithSubItems(goals, goalId, items);
      r[j] == goals[j].(subItems := items) && forall k :: 0 <= k < |goals| && k != j ==> r[k] == goals[k]
  {
    assert GoalStore.FindById(goals, goalId) == j;
  }

  /** After a failed request, `loadGoals` replaces the list with what the server sent, if it answered. */
  function AfterRequest(optimistic: seq<Goal>, ok: bool, reload: Option<seq<Goal>>): (r: seq<Goal>)
    ensures ok ==> r == optimistic
    ensures !ok ==> r == reload.GetOr(optimistic)
  {
    if ok then optimistic else reload.GetOr(optimistic)
  }

  /** The first word of the name: `name.substring(0, name.indexOf(" "))`. */
  function FirstName(name: string): (r: string)
    ensures |r| <= |name| && r == name[..|r|] && ' ' !in r
    ensures ' ' in name ==> |r| < |name| && name[|r|] == ' '
    ensures ' ' !in name ==> r == ""
  {
    Substring(name, 0, IndexOf(name, ' '))
  }

  /** A name made of a space-free first word, a space and anything after greets by that word. */
  lemma FirstNameOf(first: string, rest: string)
    requires ' ' !in first
    ensures FirstName(first + " " + rest) == first
  {
    var name := first + " " + rest;
    assert name[|first|] == ' ';
    assert name[..|first|] == first;
  }

  /** The screen's list of goals, as held in its state. */
  class Home {
    var goals: seq<Goal>

    constructor (loaded: seq<Goal>)
      ensures goals == loaded
    {
      goals := loaded;
    }

    /** `loadGoals` after a failed request: the server's list when it answered. */
    method Reload(reload: Option<seq<Goal>>)
      modifies this
      ensures goals == old(reload.GetOr(goals))
    {
      if reload.Some? {
        goals := reload.value;
      }
    }

    /**
     * `handleReorderGoals`: the re-indexed goals are shown at once and their ids sent;
     * a failed request falls back to a reload.
     */
    method HandleReorderGoals(data: seq<Goal>, ok: bool, reload: Option<seq<Goal>>) returns (sent: seq<GoalId>)
      modifies this
      ensures sent == ReorderGoals(data).orderedIds
      ensures goals == AfterRequest(ReorderGoals(data).goals, ok, reload)
    {
      var reordered := ReorderGoals(data);
      goals := reordered.goals;
      sent := reordered.orderedIds;
      if !ok {
        Reload(reload);
      }
    }

    /**
     * `handleReorderSubItems`: nothing happens for an unknown goal; otherwise the goal's
     * sub-items are replaced before the request is sent, and a failure reloads.
     */
    method HandleReorderSubItems(goalId: GoalId, items: seq<SubItem>, ok: bool, reload: Option<seq<Goal>>)
      returns (sent: Option<seq<SubItem>>)
      modifies this
      ensures sent.None? <==> GoalStore.FindById(old(goals), goalId) == -1
      ensures sent.None? ==> goals == old(goals)
      ensures sent.Some? ==> sent.value == items && goals == AfterRequest(WithSubItems(old(goals), goalId, items), ok, reload)
    {
      var j := GoalStore.FindById(goals, goalId);
      if j < 0 {
        return None;
      }
      goals := WithSubItems(goals, goalId, items);
      sent := Some(items);
      if !ok {
        Reload(reload);
      }
    }

    /**
     * `handleUpdateSubItem`: nothing happens for an unknown goal; otherwise the goal's
     * sub-items with the one matching id replaced are sent, and the list shows them
     * only once the request has succeeded.
     */
    method HandleUpdateSubItem(goalId: GoalId, updated: SubItem, ok: bool) returns (sent: Option<seq<SubItem>>)
      modifies this
      ensures sent.None? <==> GoalStore.FindById(old(goals), goalId) == -1
      ensures sent.Some? ==> sent.value == ReplaceSubItem(old(goals)[GoalStore.FindById(old(goals), goalId)].subItems, updated)
      ensures goals == if sent.Some? && ok then WithSubItems(old(goals), goalId, sent.value) else old(goals)
    {
      var j := GoalStore.FindById(goals, goalId);
      if j < 0 {
        return None;
      }
      var items := ReplaceSubItem(goals[j].subItems, updated);
      sent := Some(items);
      if ok {
        goals := WithSubItems(goals, goalId, items);
      }
    }

    /** `goals.sort((a, b) => a.order - b.order)`: the state's own array is sorted, stably. */
    method SortForDisplay()
      modifies this
      ensures goals == Sort(old(goals), GoalServer.OrderRank)
      ensures SortedBy(goals, GoalServer.OrderRank) && multiset(goals) == multiset(old(goals))
    {
      var s := goals;
      var a := new Goal[|s|](i requires 0 <= i < |s| => s[i]);
      assert a[..] == s;
      SortInPlace(a, GoalServer.OrderRank);
      SortPermutesAndOrders(s, GoalServer.OrderRank);
      goals := a[..];
    }
  }
}
