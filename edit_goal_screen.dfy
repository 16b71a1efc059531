/**
 * The form logic of `frontend/screens/EditGoalScreen.js`: the initial reset
 * frequency, adding and removing sub-items, the priority choices, and the
 * payload `handleSave` sends. `uuid.v4()` is a parameter (the fresh id), and
 * the alert, the request and the navigation are left to the caller.
 */
module EditGoalScreen {
  import opened Wrappers
  import opened JsText
  import opened Sorting
  import opened GoalModel
  import GoalCard

  /** `goal.resetFrequency || 'daily'`: a missing or empty frequency starts the picker at daily. */
  function InitialFrequency(f: Option<Frequency>): (r: Frequency)
    ensures f.None? || f == Some(OtherFrequency("")) ==> r == Daily
    ensures f.Some? && f != Some(OtherFrequency("")) ==> r == f.value
    ensures r != OtherFrequency("")
  {
    match f
    case Some(OtherFrequency(name)) => if name == "" then Daily else OtherFrequency(name)
    case Some(freq) => freq
    case None => Daily
  }

  /** The buttons of the priority selector, `[0, 1, 2, 3]`. */
  function PriorityChoices(): (ps: seq<int>)
    ensures forall p :: p in ps <==> 0 <= p <= 3
    ensures |ps| == 4 && forall i :: 0 <= i < |ps| ==> ps[i] == i
  {
    [0, 1, 2, 3]
  }

  /** `newSubItemType === 'progress' ? parseInt(newSubItemTarget) || 100 : 100`. */
  function NewTarget(itemType: ItemType, target: string): (t: int)
    ensures itemType != Progress ==> t == DEFAULT_TARGET_VALUE
    ensures itemType == Progress && ParseInt(target).Some? && ParseInt(target).value != 0 ==> t == ParseInt(target).value
    ensures itemType == Progress && (ParseInt(target).None? || ParseInt(target) == Some(0)) ==> t == DEFAULT_TARGET_VALUE
  {
    if itemType == Progress then ParseIntOr(target, DEFAULT_TARGET_VALUE) else DEFAULT_TARGET_VALUE
  }

  /** The largest `order` among the items. */
  function MaxOrder(items: seq<SubItem>): (m: int)
    requires items != []
    ensures forall k :: 0 <= k < |items| ==> items[k].order <= m
    ensures exists k :: 0 <= k < |items| && items[k].order == m
  {
    if |items| == 1 then items[0].order
    else
      var front := items[..|items| - 1];
      assert forall k :: 0 <= k < |front| ==> front[k] == items[k];
      var m := MaxOrder(front);
      var last := items[|items| - 1].order;
      if last > m then last else m
  }

  /** One past every order in use, and never below the length the source uses. */
  function NextOrder(items: seq<SubItem>): (n: int)
    ensures n >= |items|
    ensures forall k :: 0 <= k < |items| ==> items[k].order < n
  {
    if items == [] then 0
    else
      var m := MaxOrder(items) + 1;
      if m > |items| then m else |items|
  }

  /**
   * `handleAddSubItem` as written: a blank title adds nothing; otherwise an unchecked
   * item with the untrimmed title and `order: subItems.length` is appended.
   */
  function AddSubItemAsWritten(items: seq<SubItem>, title: string, itemType: ItemType, target: string, newId: string): (r: seq<SubItem>)
    ensures AllSpace(title) ==> r == items
    ensures !AllSpace(title) ==>
      r == items + [SubItem(newId, title, itemType, false, 0, NewTarget(itemType, target), |items|)]
  {
    TrimEmptyIffAllSpace(title);
    if Trim(title) == "" then items
    else items + [SubItem(newId, title, itemType, false, 0, NewTarget(itemType, target), |items|)]
  }

  /**
   * `handleAddSubItem` with the new item's `order` past every order in use, so that
   * the sorted list shows it last; on a list whose orders are its positions this is
   * the source's `subItems.length`.
   */
  function AddSubItem(items: seq<SubItem>, title: string, itemType: ItemType, target: string, newId: string): (r: seq<SubItem>)
    ensures AllSpace(title) ==> r == items
    ensures !AllSpace(title) ==>
      r == items + [SubItem(newId, title, itemType, false, 0, NewTarget(itemType, target), NextOrder(items))]
  {
    TrimEmptyIffAllSpace(title);
    if Trim(title) == "" then items
    else items + [SubItem(newId, title, itemType, false, 0, NewTarget(itemType, target), NextOrder(items))]
  }

  /** When the orders are the positions, as after a drag, both versions add the same item. */
  lemma {:induction false} AddAgreesOnIndexedLists(items: seq<SubItem>, title: string, itemType: ItemType, target: string, newId: string)
    requires forall k :: 0 <= k < |items| ==> items[k].order == k
    ensures AddSubItem(items, title, itemType, target, newId) == AddSubItemAsWritten(items, title, itemType, target, newId)
  {
    if items != [] {
      var m := MaxOrder(items);
      var k :| 0 <= k < |items| && items[k].order == m;
      assert items[|items| - 1].order == |items| - 1;
      assert m == |items| - 1;
    }
  }

  /** A new item is listed after every item already there, whatever their orders. */
  lemma AddedItemListedLast(items: seq<SubItem>, title: string, itemType: ItemType, target: string, newId: string)
    requires !AllSpace(title)
    ensures var r := AddSubItem(items, title, itemType, target, newId);
      Sort(r, GoalCard.ItemOrder) == Sort(items, GoalCard.ItemOrder) + [r[|r| - 1]]
  {
    var r := AddSubItem(items, title, itemType, target, newId);
    var x := r[|r| - 1];
    assert r[..|r| - 1] == items;
    var sorted := Sort(items, GoalCard.ItemOrder);
    SortPermutesAndOrders(items, GoalCard.ItemOrder);
    if sorted != [] {
      var last := sorted[|sorted| - 1];
      assert last in multiset(items);
      assert RankLe(GoalCard.ItemOrder(last), GoalCard.ItemOrder(x));
    }
  }

  /**
   * Four items whose orders are their positions, the first two removed: an item added
   * as written takes the order of the first survivor and is listed between the two
   * survivors instead of at the end.
   */
  lemma AsWrittenAddListedInMiddle(a: SubItem, b: SubItem, c: SubItem, d: SubItem,
                                   title: string, itemType: ItemType, target: string, newId: string)
    requires a.order == 0 && b.order == 1 && c.order == 2 && d.order == 3
    requires a.id != b.id && c.id != a.id && d.id != a.id && c.id != b.id && d.id != b.id
    requires !AllSpace(title)
    ensures var left := RemoveSubItem(RemoveSubItem([a, b, c, d], a.id), b.id);
      var r := AddSubItemAsWritten(left, title, itemType, target, newId);
      left == [c, d] && |r| == 3 && r[2].order == c.order
      && Sort(r, GoalCard.ItemOrder) == [c, r[2], d]
  {
    RemoveFirstTwo(a, b, c, d);
    var e := SubItem(newId, title, itemType, false, 0, NewTarget(itemType, target), 2);
    var r := AddSubItemAsWritten([c, d], title, itemType, target, newId);
    assert r == [c, d, e];
    ListedInMiddle(c, d, e);
  }

  /** Filtering out the ids of the first two of four items leaves the last two. */
  lemma RemoveFirstTwo(a: SubItem, b: SubItem, c: SubItem, d: SubItem)
    requires a.id != b.id && c.id != a.id && d.id != a.id && c.id != b.id && d.id != b.id
    ensures RemoveSubItem(RemoveSubItem([a, b, c, d], a.id), b.id) == [c, d]
  {
    RemoveLeadingOfFour(a, b, c, d, a.id);
    RemoveLeadingOfThree(b, c, d, b.id);
  }

  /** The filter applied to a list extended at the end: the last item is kept or dropped. */
  lemma RemoveSnoc(s: seq<SubItem>, x: SubItem, id: string)
    ensures RemoveSubItem(s + [x], id) == RemoveSubItem(s, id) + (if x.id == id then [] else [x])
  {
    assert (s + [x])[..|s|] == s;
  }

  lemma RemoveLeadingOfThree(x: SubItem, y: SubItem, z: SubItem, id: string)
    requires x.id == id && y.id != id && z.id != id
    ensures RemoveSubItem([x, y, z], id) == [y, z]
  {
    RemoveSnoc([], x, id);
    assert [] + [x] == [x];
    RemoveSnoc([x], y, id);
    assert [x] + [y] == [x, y];
    RemoveSnoc([x, y], z, id);
    assert [x, y] + [z] == [x, y, z];
  }

  lemma RemoveLeadingOfFour(w: SubItem, x: SubItem, y: SubItem, z: SubItem, id: string)
    requires w.id == id && x.id != id && y.id != id && z.id != id
    ensures RemoveSubItem([w, x, y, z], id) == [x, y, z]
  {
    RemoveLeadingOfThree(w, x, y, id);
    RemoveSnoc([w, x, y], z, id);
    assert [w, x, y] + [z] == [w, x, y, z];
  }

  lemma ListedInMiddle(c: SubItem, d: SubItem, e: SubItem)
    requires c.order == 2 && d.order == 3 && e.order == 2
    ensures Sort([c, d, e], GoalCard.ItemOrder) == [c, e, d]
  {
    assert [c, d, e][..2] == [c, d];
    assert [c, d][..1] == [c];
    assert Sort([c], GoalCard.ItemOrder) == [c];
    assert Sort([c, d], GoalCard.ItemOrder) == [c, d];
    assert [c, d][..1] == [c];
    assert Insert([c], e, GoalCard.ItemOrder) == [c, e];
    assert Insert([c, d], e, GoalCard.ItemOrder) == [c, e, d];
  }

  /** `subItems.filter(item => item.id !== id)`. */
  function RemoveSubItem(items: seq<SubItem>, id: string): (r: seq<SubItem>)
    ensures |r| <= |items|
    ensures (forall k :: 0 <= k < |items| ==> items[k].id != id) ==> r == items
  {
    if items == [] then []
    else
      var front := items[..|items| - 1];
      var last := items[|items| - 1];
      assert items == front + [last];
      RemoveSubItem(front, id) + (if last.id == id then [] else [last])
  }

  /** Exactly the items with another id survive the filter. */
  lemma {:induction false} RemoveSubItemMembers(items: seq<SubItem>, id: string)
    ensures forall it :: it in RemoveSubItem(items, id) <==> it in items && it.id != id
  {
    if items != [] {
      var front := items[..|items| - 1];
      RemoveSubItemMembers(front, id);
      assert items == front + [items[|items| - 1]];
    }
  }

  /** The survivors keep their order fields, so a list that was listed in order still is. */
  lemma {:induction false} RemoveKeepsListing(items: seq<SubItem>, id: string)
    requires SortedBy(items, GoalCard.ItemOrder)
    ensures SortedBy(RemoveSubItem(items, id), GoalCard.ItemOrder)
  {
    if items != [] {
      var front := items[..|items| - 1];
      var last := items[|items| - 1];
      assert SortedBy(front, GoalCard.ItemOrder);
      RemoveKeepsListing(front, id);
      var rf := RemoveSubItem(front, id);
      RemoveSubItemMembers(front, id);
      forall k | 0 <= k < |rf| ensures RankLe(GoalCard.ItemOrder(rf[k]), GoalCard.ItemOrder(last)) {
        assert rf[k] in front;
      }
    }
  }

  /** Removing an item just added with a fresh id gives back the list as it was. */
  lemma RemoveUndoesAdd(items: seq<SubItem>, title: string, itemType: ItemType, target: string, newId: string)
    requires forall k :: 0 <= k < |items| ==> items[k].id != newId
    ensures RemoveSubItem(AddSubItem(items, title, itemType, target, newId), newId) == items
  {
    var r := AddSubItem(items, title, itemType, target, newId);
    if !AllSpace(title) {
      assert r[..|r| - 1] == items;
    }
  }

  /** The object literal of `handleSave`. */
  datatype GoalData = GoalData(
    title: string,
    goalType: GoalType,
    resetFrequency: Option<Frequency>,
    color: string,
    priority: int,
    subItems: seq<SubItem>)

  /**
   * `handleSave`: no request for a blank title; otherwise the trimmed title, and a
   * reset frequency only for a continuous goal.
   */
  function SavePayload(title: string, goalType: GoalType, resetFrequency: Frequency, color: string,
                       priority: int, subItems: seq<SubItem>): (r: Option<GoalData>)
    ensures r.None? <==> AllSpace(title)
    ensures r.Some? ==> r.value.title == Trim(title)
    ensures r.Some? ==> (r.value.resetFrequency.Some? <==> goalType == Continuous)
    ensures r.Some? && goalType == Continuous ==> r.value.resetFrequency == Some(resetFrequency)
    ensures r.Some? ==> (r.value.goalType == goalType && r.value.color == color
                         && r.value.priority == priority && r.value.subItems == subItems)
  {
    TrimEmptyIffAllSpace(title);
    if Trim(title) == "" then None
    else Some(GoalData(Trim(title), goalType, if goalType == Continuous then Some(resetFrequency) else None,
                       color, priority, subItems))
  }

  /** A saved title is non-blank and already trimmed, so saving it again sends the same title. */
  lemma SavedTitleIsStable(title: string, goalType: GoalType, resetFrequency: Frequency, color: string,
                           priority: int, subItems: seq<SubItem>)
    requires SavePayload(title, goalType, resetFrequency, color, priority, subItems).Some?
    ensures var t := SavePayload(title, goalType, resetFrequency, color, priority, subItems).value.title;
      t != "" && SavePayload(t, goalType, resetFrequency, color, priority, subItems)
                 == SavePayload(title, goalType, resetFrequency, color, priority, subItems)
  {
    var t := Trim(title);
    TrimIdempotent(title);
    TrimEmptyIffAllSpace(title);
    TrimEmptyIffAllSpace(t);
    assert Trim(t) == t && !AllSpace(t);
  }
}
