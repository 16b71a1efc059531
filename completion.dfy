/**
 * The completion and reset rules of `backend/server.js`: `calculateCompletion`
 * and `checkAndResetGoal`. The clock reading is a parameter, and local-time
 * month and year are a `Calendar` supplied by the caller.
 */
module Completion {
  import opened Wrappers
  import opened GoalModel

  /** Milliseconds in a day and in a week, `1000 * 60 * 60 * 24` and seven times that. */
  const DAY_MS: int := 1000 * 60 * 60 * 24
  const WEEK_MS: int := DAY_MS * 7

  /** `date.getMonth()` and `date.getFullYear()` in the server's local time zone. */
  datatype Calendar = Calendar(month: Timestamp -> int, fullYear: Timestamp -> int)

  /** The per-item test of `calculateCompletion`: an item of an unknown type never counts as done. */
  predicate Satisfied(s: SubItem) {
    match s.itemType
    case Checkbox => s.isChecked
    case Progress => s.currentValue >= s.targetValue
    case OtherItemType(_) => false
  }

  /** `subItems.every(...)`, evaluated from the front. */
  function Every(items: seq<SubItem>): (b: bool)
    ensures b <==> forall k :: 0 <= k < |items| ==> Satisfied(items[k])
  {
    if items == [] then true
    else if !Satisfied(items[0]) then false
    else
      assert forall k :: 1 <= k < |items| ==> items[k] == items[1..][k - 1];
      Every(items[1..])
  }

  /**
   * `calculateCompletion(goal)`: false for a goal without sub-items; otherwise true
   * exactly when every checkbox is checked, every progress item has reached its
   * target, and no item has another type.
   */
  function CalculateCompletion(items: seq<SubItem>): (done: bool)
    ensures done <==> |items| > 0 && forall k :: 0 <= k < |items| ==>
      match items[k].itemType
      case Checkbox => items[k].isChecked
      case Progress => items[k].currentValue >= items[k].targetValue
      case OtherItemType(_) => false
  {
    |items| != 0 && Every(items)
  }

  /** The `switch` of `checkAndResetGoal`: whether the goal is due for a reset at `now`. */
  predicate ShouldReset(g: Goal, now: Timestamp, cal: Calendar) {
    if g.goalType != Continuous || g.lastResetDate.None? then false
    else
      var last := g.lastResetDate.value;
      match g.resetFrequency
      // Math.floor of the quotient: Dafny's division agrees with it for a positive divisor.
      case Some(Daily) => (now - last) / DAY_MS >= 1
      case Some(Weekly) => (now - last) / WEEK_MS >= 1
      case Some(Monthly) => cal.month(now) != cal.month(last) || cal.fullYear(now) != cal.fullYear(last)
      case _ => false
  }

  lemma FloorQuotientAtLeastOne(d: int, m: int)
    requires m > 0
    ensures d / m >= 1 <==> d >= m
  {
    var q, r := d / m, d % m;
    assert d == q * m + r && 0 <= r < m;
    if q >= 1 {
      assert q * m >= m;
    } else {
      assert q * m <= 0;
    }
  }

  /**
   * Only a continuous goal with a last reset date is ever reset. A daily goal is due
   * once a full day of milliseconds has passed, a weekly one after a full week, a
   * monthly one once the calendar month or year differs; no or an unknown frequency
   * never resets.
   */
  lemma ResetRule(g: Goal, now: Timestamp, cal: Calendar)
    ensures ShouldReset(g, now, cal) <==>
      && g.goalType == Continuous
      && g.lastResetDate.Some?
      && var last := g.lastResetDate.value;
         || (g.resetFrequency == Some(Daily) && now - last >= 86_400_000)
         || (g.resetFrequency == Some(Weekly) && now - last >= 604_800_000)
         || (g.resetFrequency == Some(Monthly)
             && (cal.month(now) != cal.month(last) || cal.fullYear(now) != cal.fullYear(last)))
  {
    if g.goalType == Continuous && g.lastResetDate.Some? {
      FloorQuotientAtLeastOne(now - g.lastResetDate.value, DAY_MS);
      FloorQuotientAtLeastOne(now - g.lastResetDate.value, WEEK_MS);
    }
  }

  /** A reset unchecks a checkbox, zeroes a progress value, and leaves an item of another type as it is. */
  function ResetItem(s: SubItem): (r: SubItem)
    ensures r.id == s.id && r.title == s.title && r.itemType == s.itemType
            && r.targetValue == s.targetValue && r.order == s.order
    ensures r.itemType == Checkbox ==> !r.isChecked && r.currentValue == s.currentValue
    ensures r.itemType == Progress ==> r.currentValue == 0 && r.isChecked == s.isChecked
    ensures r.itemType.OtherItemType? ==> r == s
  {
    match s.itemType
    case Checkbox => s.(isChecked := false)
    case Progress => s.(currentValue := 0)
    case OtherItemType(_) => s
  }

  function ResetAll(items: seq<SubItem>): seq<SubItem> {
    seq(|items|, k requires 0 <= k < |items| => ResetItem(items[k]))
  }

  /** The `subItems.forEach` of a reset, item by item. */
  method ResetSubItems(items: seq<SubItem>) returns (r: seq<SubItem>)
    ensures |r| == |items|
    ensures forall k :: 0 <= k < |items| ==> r[k] == ResetItem(items[k])
  {
    r := items;
    var i := 0;
    while i < |r|
      invariant 0 <= i <= |r| == |items|
      invariant forall k :: 0 <= k < i ==> r[k] == ResetItem(items[k])
      invariant forall k :: i <= k < |r| ==> r[k] == items[k]
    {
      r := r[i := ResetItem(r[i])];
      i := i + 1;
    }
  }

  /** The goal as `checkAndResetGoal` leaves it: reset and saved when due, otherwise untouched. */
  function Reconcile(g: Goal, now: Timestamp, cal: Calendar): Goal {
    if ShouldReset(g, now, cal) then
      PreSave(g.(subItems := ResetAll(g.subItems), lastResetDate := Some(now), isCompleted := false), now)
    else g
  }

  /** `checkAndResetGoal(goal)`: returns whether the goal was reset, and the goal afterwards. */
  method CheckAndResetGoal(g: Goal, now: Timestamp, cal: Calendar) returns (didReset: bool, r: Goal)
    ensures didReset == ShouldReset(g, now, cal)
    ensures r == Reconcile(g, now, cal)
  {
    if !ShouldReset(g, now, cal) {
      return false, g;
    }
    var items := ResetSubItems(g.subItems);
    r := g.(subItems := items, lastResetDate := Some(now), isCompleted := false);
    r := PreSave(r, now);
    didReset := true;
  }

  /**
   * What a reset does: each item becomes `ResetItem` of itself, so every checkbox is
   * unchecked, every progress value zero and an item of another type left as it was;
   * `lastResetDate` is now, the goal not completed and saved at now. Titles, targets,
   * types, item order and the goal's own identity, owner, title, priority and order are
   * untouched. Without a reset the goal is unchanged.
   */
  lemma ReconcileEffect(g: Goal, now: Timestamp, cal: Calendar)
    ensures var r := Reconcile(g, now, cal);
      && r.id == g.id && r.userId == g.userId && r.title == g.title && r.goalType == g.goalType
      && r.resetFrequency == g.resetFrequency && r.priority == g.priority && r.order == g.order
      && r.color == g.color && r.createdAt == g.createdAt && |r.subItems| == |g.subItems|
      && (ShouldReset(g, now, cal) ==>
            && r.lastResetDate == Some(now) && !r.isCompleted && r.updatedAt == now
            && forall k :: 0 <= k < |g.subItems| ==>
                 && r.subItems[k] == ResetItem(g.subItems[k])
                 && r.subItems[k].id == g.subItems[k].id
                 && r.subItems[k].title == g.subItems[k].title
                 && r.subItems[k].itemType == g.subItems[k].itemType
                 && r.subItems[k].targetValue == g.subItems[k].targetValue
                 && r.subItems[k].order == g.subItems[k].order
                 && (g.subItems[k].itemType == Checkbox ==>
                       !r.subItems[k].isChecked && r.subItems[k].currentValue == g.subItems[k].currentValue)
                 && (g.subItems[k].itemType == Progress ==>
                       r.subItems[k].currentValue == 0 && r.subItems[k].isChecked == g.subItems[k].isChecked)
                 && (g.subItems[k].itemType.OtherItemType? ==> r.subItems[k] == g.subItems[k]))
      && (!ShouldReset(g, now, cal) ==> r == g)
  {
  }

  /** A reset goal that has a checkbox, or a progress item with a positive target, is no longer complete. */
  lemma ResetClearsCompletion(g: Goal, now: Timestamp, cal: Calendar, k: nat)
    requires ShouldReset(g, now, cal)
    requires k < |g.subItems|
    requires g.subItems[k].itemType == Checkbox
             || (g.subItems[k].itemType == Progress && g.subItems[k].targetValue > 0)
    ensures !CalculateCompletion(Reconcile(g, now, cal).subItems)
  {
    var items := Reconcile(g, now, cal).subItems;
    assert items[k] == ResetItem(g.subItems[k]);
    assert !Satisfied(items[k]);
  }

  /** A reset keeps a goal acceptable to the schema: it changes no id, title or type. */
  lemma ReconcileValid(g: Goal, now: Timestamp, cal: Calendar)
    requires ValidGoal(g)
    ensures ValidGoal(Reconcile(g, now, cal))
  {
    var r := Reconcile(g, now, cal);
    forall k | 0 <= k < |r.subItems| ensures ValidSubItem(r.subItems[k]) {
      if ShouldReset(g, now, cal) {
        assert r.subItems[k] == ResetItem(g.subItems[k]);
      }
    }
  }
}
