/**
 * The item updates of the `SubItemCard` component in
 * `frontend/components/SubItemCard.js`: the initial text of the progress
 * editor, the checkbox toggle and the progress update, each with the decision
 * whether to show confetti. The update handed to `onUpdate` is the result;
 * the haptic feedback and the modal are left out.
 */
module SubItemCard {
  import opened Wrappers
  import opened JsText
  import opened GoalModel

  /** What a handler passes to `onUpdate`, and whether it calls `onShowConfetti`. */
  datatype Update = Update(item: SubItem, confetti: bool)

  /** `item.currentValue?.toString() || '0'`: a present number is never the empty string. */
  function InitialEditText(currentValue: Option<int>): (text: string)
    ensures text != ""
    ensures currentValue.None? ==> text == "0"
  {
    match currentValue
    case Some(v) => IntToString(v)
    case None => "0"
  }

  /** Saving the editor untouched writes back the value it was opened with (0 when there was none). */
  lemma InitialTextRoundTrip(currentValue: Option<int>)
    ensures ParseIntOr(InitialEditText(currentValue), 0) == currentValue.GetOr(0)
  {
    match currentValue
    case Some(v) => ParseIntOfIntToString(v);
    case None => ParseIntOfIntToString(0);
  }

  /** `handleCheckboxToggle`: the same item with `isChecked` negated; confetti when it becomes checked. */
  function Toggle(item: SubItem): (u: Update)
    ensures u.item.isChecked == !item.isChecked
    ensures u.item.(isChecked := item.isChecked) == item
    ensures u.confetti <==> u.item.isChecked
  {
    var checked := !item.isChecked;
    Update(item.(isChecked := checked), checked)
  }

  /** Toggling twice hands back the original item, and exactly one of the two toggles shows confetti. */
  lemma ToggleTwice(item: SubItem)
    ensures Toggle(Toggle(item).item).item == item
    ensures Toggle(item).confetti != Toggle(Toggle(item).item).confetti
  {
  }

  /** `wasComplete` and `willBeComplete`: a value at or above the item's target. */
  predicate Reached(value: int, item: SubItem) {
    value >= item.targetValue
  }

  /**
   * `handleProgressUpdate`: the item with `currentValue` set to `parseInt(editValue) || 0`;
   * confetti only when this update crosses the target from below.
   */
  function ProgressUpdate(item: SubItem, editValue: string): (u: Update)
    ensures ParseInt(editValue).Some? ==> u.item.currentValue == ParseInt(editValue).value
    ensures ParseInt(editValue).None? ==> u.item.currentValue == 0
    ensures u.item.(currentValue := item.currentValue) == item
    ensures u.confetti <==> !Reached(item.currentValue, item) && Reached(u.item.currentValue, item)
  {
    var newValue := ParseIntOr(editValue, 0);
    Update(item.(currentValue := newValue), !Reached(item.currentValue, item) && Reached(newValue, item))
  }

  /** Re-saving a value does not show confetti a second time. */
  lemma ProgressConfettiOnce(item: SubItem, editValue: string)
    ensures !ProgressUpdate(ProgressUpdate(item, editValue).item, editValue).confetti
    ensures ProgressUpdate(ProgressUpdate(item, editValue).item, editValue).item == ProgressUpdate(item, editValue).item
  {
  }

  /**
   * Opening the editor on an item and saving it unchanged leaves the item as it is
   * and shows no confetti.
   */
  lemma UnchangedSaveIsQuiet(item: SubItem)
    ensures ProgressUpdate(item, InitialEditText(Some(item.currentValue))) == Update(item, false)
  {
    InitialTextRoundTrip(Some(item.currentValue));
  }
}
