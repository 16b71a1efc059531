/**
 * The computations of the `GoalCard` component in
 * `frontend/components/GoalCard.js`: the completed count and the progress
 * fraction shown in the header, the re-indexing that `handleReorder` applies
 * after a drag, the shared badge, and the in-place sort of the sub-items
 * before they are listed.
 */
module GoalCard {
  import opened Wrappers
  import opened Sorting
  import opened GoalModel
  import Completion

  /** The filter of `completedCount`: a checkbox counts when checked, any other item once it has reached its target. */
  predicate Counted(s: SubItem) {
    if s.itemType == Checkbox then s.isChecked else s.currentValue >= s.targetValue
  }

  /** `goal.subItems.filter(...).length`. */
  function CompletedCount(items: seq<SubItem>): (n: nat)
    ensures n <= |items|
    ensures n == |items| <==> forall k :: 0 <= k < |items| ==> Counted(items[k])
    ensures n == 0 <==> forall k :: 0 <= k < |items| ==> !Counted(items[k])
  {
    if items == [] then 0
    else
      var front := items[..|items| - 1];
      assert forall k :: 0 <= k < |front| ==> front[k] == items[k];
      CompletedCount(front) + (if Counted(items[|items| - 1]) then 1 else 0)
  }

  /**
   * On sub-items of the two known types the card shows a full count exactly when
   * the server's `calculateCompletion` marks the goal completed.
   */
  lemma CountAgreesWithCompletion(items: seq<SubItem>)
    requires forall k :: 0 <= k < |items| ==> KnownItemType(items[k].itemType)
    ensures (|items| > 0 && CompletedCount(items) == |items|) <==> Completion.CalculateCompletion(items)
  {
    assert forall k :: 0 <= k < |items| ==> (Counted(items[k]) <==> Completion.Satisfied(items[k]));
  }

  /**
   * A sub-item of an unknown type that has reached its target is counted by the
   * card but never satisfies the server's completion test.
   */
  lemma UnknownTypeCountedByCardOnly()
    ensures var s := SubItem("a", "Read", OtherItemType("note"), false, 5, 5, 0);
      CompletedCount([s]) == 1 && !Completion.CalculateCompletion([s])
  {
    var s := SubItem("a", "Read", OtherItemType("note"), false, 5, 5, 0);
    assert Counted(s);
    assert [s][..0] == [];
  }

  /** `totalCount > 0 ? (completedCount / totalCount) * 100 : 0`, on exact rationals. */
  function ProgressPercent(items: seq<SubItem>): (p: real)
    ensures 0.0 <= p <= 100.0
    ensures items == [] ==> p == 0.0
    ensures p == 100.0 <==> items != [] && CompletedCount(items) == |items|
    ensures p == 0.0 <==> CompletedCount(items) == 0
  {
    var total := |items|;
    var done := CompletedCount(items);
    if total > 0 then
      var p := (done as real / total as real) * 100.0;
      PercentBounds(done, total);
      p
    else 0.0
  }

  lemma PercentBounds(done: nat, total: nat)
    requires 0 < total && done <= total
    ensures var p := (done as real / total as real) * 100.0;
      0.0 <= p <= 100.0 && (p == 100.0 <==> done == total) && (p == 0.0 <==> done == 0)
  {
    var q := done as real / total as real;
    assert q * total as real == done as real;
    if q == 1.0 {
      assert done as real == total as real;
    }
  }

  /** The key of the comparator `(a, b) => a.order - b.order`. */
  function ItemOrder(s: SubItem): Rank {
    Rank(s.order, 0)
  }

  /** `data.map((item, index) => ({ ...item, order: index }))` in `handleReorder`. */
  function Reindexed(data: seq<SubItem>): (r: seq<SubItem>)
    ensures |r| == |data|
    ensures forall i :: 0 <= i < |data| ==> r[i].order == i
    ensures forall i :: 0 <= i < |data| ==> r[i].(order := data[i].order) == data[i]
  {
    seq(|data|, i requires 0 <= i < |data| => data[i].(order := i))
  }

  /**
   * After a drag, listing the re-indexed items sorted by `order` shows them in
   * exactly the dragged sequence.
   */
  lemma ReindexedListsAsDragged(data: seq<SubItem>)
    ensures SortedBy(Reindexed(data), ItemOrder)
    ensures Sort(Reindexed(data), ItemOrder) == Reindexed(data)
  {
    var r := Reindexed(data);
    assert forall i, j :: 0 <= i < j < |r| ==> RankLe(ItemOrder(r[i]), ItemOrder(r[j]));
    SortOfSorted(r, ItemOrder);
  }

  /** The shared badge: shown when `sharedWith` holds someone, with the owner counted in. */
  function SharedBadge(sharedWith: Option<seq<string>>): (badge: Option<nat>)
    ensures badge.Some? <==> sharedWith.Some? && |sharedWith.value| > 0
    ensures badge.Some? ==> badge.value == |sharedWith.value| + 1 && badge.value >= 2
  {
    match sharedWith
    case Some(people) => if |people| > 0 then Some(|people| + 1) else None
    case None => None
  }

  /** `goal.subItems.sort((a, b) => a.order - b.order)`: a stable sort of the goal's own array. */
  method DisplaySubItems(a: array<SubItem>)
    modifies a
    ensures a[..] == Sort(old(a[..]), ItemOrder)
    ensures SortedBy(a[..], ItemOrder)
    ensures multiset(a[..]) == multiset(old(a[..]))
  {
    SortPermutesAndOrders(a[..], ItemOrder);
    SortInPlace(a, ItemOrder);
  }
}
