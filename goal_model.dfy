/**
 * The Goal and SubItem documents of `backend/models/Goal.js`: their fields,
 * enumerations, defaults, required paths, and the `pre('save')` hook.
 *
 * Enumerated string paths carry an extra `Other…` constructor for a value
 * outside the enumeration, so that documents assembled from request bodies
 * can hold it until validation rejects it at save time.
 */
module GoalModel {
  import opened Wrappers

  /** Milliseconds since the epoch, as `Date.now()` returns them. */
  type Timestamp = int
  type UserId = nat
  type GoalId = nat

  datatype ItemType = Checkbox | Progress | OtherItemType(name: string)
  datatype GoalType = Discrete | Continuous | OtherGoalType(name: string)
  datatype Frequency = Daily | Weekly | Monthly | OtherFrequency(name: string)

  datatype SubItem = SubItem(
    id: string,
    title: string,
    itemType: ItemType,
    isChecked: bool,
    currentValue: int,
    targetValue: int,
    order: int)

  datatype Goal = Goal(
    id: GoalId,
    userId: UserId,
    title: string,
    goalType: GoalType,
    resetFrequency: Option<Frequency>,
    lastResetDate: Option<Timestamp>,
    subItems: seq<SubItem>,
    isCompleted: bool,
    priority: int,
    order: int,
    color: string,
    createdAt: Timestamp,
    updatedAt: Timestamp)

  const DEFAULT_TARGET_VALUE: int := 100
  const DEFAULT_COLOR: string := "#E8B4B8"

  /** Why a document failed validation: a required path is missing, or a value is outside its enum. */
  datatype ValidationError = Required(path: string) | NotInEnum(path: string)

  /** A sub-item as a request body carries it: every path may be missing. */
  datatype SubItemBody = SubItemBody(
    id: Option<string>,
    title: Option<string>,
    itemType: Option<ItemType>,
    isChecked: Option<bool>,
    currentValue: Option<int>,
    targetValue: Option<int>,
    order: Option<int>)

  /** The goal fields a create request body may carry. */
  datatype GoalBody = GoalBody(
    title: Option<string>,
    goalType: Option<GoalType>,
    resetFrequency: Option<Frequency>,
    subItems: seq<SubItemBody>,
    isCompleted: Option<bool>,
    priority: Option<int>,
    color: Option<string>)

  predicate KnownItemType(t: ItemType) {
    t == Checkbox || t == Progress
  }

  predicate KnownGoalType(t: GoalType) {
    t == Discrete || t == Continuous
  }

  /** `resetFrequency` is null or one of daily, weekly, monthly. */
  predicate KnownFrequency(f: Option<Frequency>) {
    f.None? || f.value == Daily || f.value == Weekly || f.value == Monthly
  }

  /** Mongoose's `required` check on a String path: present and not empty. */
  predicate PresentString(s: Option<string>) {
    s.Some? && s.value != ""
  }

  /** What SubItemSchema demands of a stored sub-item. */
  predicate ValidSubItem(s: SubItem) {
    s.id != "" && s.title != "" && KnownItemType(s.itemType)
  }

  /** What GoalSchema demands of a stored goal. */
  predicate ValidGoal(g: Goal) {
    && g.title != ""
    && KnownGoalType(g.goalType)
    && KnownFrequency(g.resetFrequency)
    && forall k :: 0 <= k < |g.subItems| ==> ValidSubItem(g.subItems[k])
  }

  /**
   * Casting and validating one sub-item body: `id`, `title`, `type` and `order`
   * are required, `type` must be checkbox or progress, and the other paths take
   * their defaults (unchecked, current value 0, target value 100).
   */
  function CastSubItem(b: SubItemBody): (r: Result<SubItem, ValidationError>)
    ensures r.Ok? <==> PresentString(b.id) && PresentString(b.title)
                       && b.itemType.Some? && KnownItemType(b.itemType.value) && b.order.Some?
    ensures r.Ok? ==> ValidSubItem(r.value)
    ensures r.Ok? ==> r.value.id == b.id.value && r.value.title == b.title.value
                      && r.value.itemType == b.itemType.value && r.value.order == b.order.value
    ensures r.Ok? ==> r.value.isChecked == (b.isChecked == Some(true))
    ensures r.Ok? ==> (b.currentValue.None? ==> r.value.currentValue == 0)
                      && (b.currentValue.Some? ==> r.value.currentValue == b.currentValue.value)
    ensures r.Ok? ==> (b.targetValue.None? ==> r.value.targetValue == DEFAULT_TARGET_VALUE)
                      && (b.targetValue.Some? ==> r.value.targetValue == b.targetValue.value)
  {
    if !PresentString(b.id) then Err(Required("id"))
    else if !PresentString(b.title) then Err(Required("title"))
    else if b.itemType.None? then Err(Required("type"))
    else if !KnownItemType(b.itemType.value) then Err(NotInEnum("type"))
    else if b.order.None? then Err(Required("order"))
    else Ok(SubItem(b.id.value, b.title.value, b.itemType.value, b.isChecked.GetOr(false),
                    b.currentValue.GetOr(0), b.targetValue.GetOr(DEFAULT_TARGET_VALUE), b.order.value))
  }

  /** Casting a `subItems` array: it succeeds exactly when every element casts, element by element. */
  function CastSubItems(bs: seq<SubItemBody>): (r: Result<seq<SubItem>, ValidationError>)
    ensures r.Ok? <==> forall k :: 0 <= k < |bs| ==> CastSubItem(bs[k]).Ok?
    ensures r.Ok? ==> |r.value| == |bs| && forall k :: 0 <= k < |bs| ==> CastSubItem(bs[k]) == Ok(r.value[k])
  {
    if bs == [] then Ok([])
    else
      match CastSubItem(bs[0])
      case Err(e) => Err(e)
      case Ok(s) =>
        match CastSubItems(bs[1..])
        case Err(e) => Err(e)
        case Ok(rest) =>
          assert forall k :: 1 <= k < |bs| ==> bs[k] == bs[1..][k - 1];
          Ok([s] + rest)
  }

  /** Why a goal document would be refused at save time, if it would. */
  function GoalError(g: Goal): (e: Option<ValidationError>)
    ensures e.None? <==> ValidGoal(g)
  {
    if g.title == "" then Some(Required("title"))
    else if !KnownGoalType(g.goalType) then Some(NotInEnum("type"))
    else if !KnownFrequency(g.resetFrequency) then Some(NotInEnum("resetFrequency"))
    else if exists k :: 0 <= k < |g.subItems| && !ValidSubItem(g.subItems[k]) then Some(NotInEnum("subItems"))
    else None
  }

  /**
   * `new Goal({...body, userId, order, lastResetDate})` followed by validation and the
   * save hook: absent paths take the schema defaults (no reset frequency, not completed,
   * priority 0, colour #E8B4B8), `createdAt` and `updatedAt` are the save time.
   */
  function NewGoal(b: GoalBody, id: GoalId, userId: UserId, order: int,
                   lastResetDate: Option<Timestamp>, now: Timestamp): (r: Result<Goal, ValidationError>)
    ensures r.Ok? <==> PresentString(b.title) && b.goalType.Some? && KnownGoalType(b.goalType.value)
                       && KnownFrequency(b.resetFrequency) && CastSubItems(b.subItems).Ok?
    ensures r.Ok? ==> ValidGoal(r.value)
    ensures r.Ok? ==> r.value.id == id && r.value.userId == userId && r.value.order == order
                      && r.value.lastResetDate == lastResetDate && r.value.title == b.title.value
                      && r.value.goalType == b.goalType.value && r.value.resetFrequency == b.resetFrequency
                      && r.value.createdAt == now && r.value.updatedAt == now
    ensures r.Ok? ==> r.value.isCompleted == (b.isCompleted == Some(true))
                      && (b.priority.None? ==> r.value.priority == 0)
                      && (b.color.None? ==> r.value.color == DEFAULT_COLOR)
    ensures r.Ok? ==> r.value.subItems == CastSubItems(b.subItems).value
                      && (b.priority.Some? ==> r.value.priority == b.priority.value)
                      && (b.color.Some? ==> r.value.color == b.color.value)
  {
    if !PresentString(b.title) then Err(Required("title"))
    else if b.goalType.None? then Err(Required("type"))
    else if !KnownGoalType(b.goalType.value) then Err(NotInEnum("type"))
    else if !KnownFrequency(b.resetFrequency) then Err(NotInEnum("resetFrequency"))
    else
      match CastSubItems(b.subItems)
      case Err(e) => Err(e)
      case Ok(items) =>
        Ok(Goal(id, userId, b.title.value, b.goalType.value, b.resetFrequency, lastResetDate, items,
                b.isCompleted.GetOr(false), b.priority.GetOr(0), order, b.color.GetOr(DEFAULT_COLOR),
                now, now))
  }

  /** The `pre('save')` hook: saving stamps `updatedAt` with the save time and touches nothing else. */
  function PreSave(g: Goal, now: Timestamp): (r: Goal)
    ensures r.updatedAt == now
    ensures r.(updatedAt := g.updatedAt) == g
  {
    g.(updatedAt := now)
  }
}
