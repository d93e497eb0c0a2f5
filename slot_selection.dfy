/**
 * The decision part of `scanAndSelectBestSlot`: scan the visible slots in
 * order, take the first whose time is at or after the preferred hour, and
 * otherwise fall back to the first slot.
 */
module SlotSelection {
  import opened Options
  import opened Seqs
  import opened TimeParse

  /**
   * A slot's time text after `trim()`; None when its label or time element
   * is missing.
   */
  type SlotText = Option<string>

  /** A slot whose time reads as an hour at or after `preferredAfter`. */
  predicate Qualifies(text: SlotText, preferredAfter: int) {
    match ParseTimeToHour(text)
    case Some(hour) => hour >= preferredAfter
    case None => false
  }

  /** What the scan reports: the slot it clicked, that slot's text, and `hasGoodSlots`. */
  datatype SlotChoice = SlotChoice(selected: Option<nat>, selectedTime: SlotText, hasGoodSlots: bool)

  /** The selection rule: the first qualifying slot, else slot 0, else nothing. */
  function BestSlot(slots: seq<SlotText>, preferredAfter: int): (c: SlotChoice)
    ensures c.hasGoodSlots <==> exists j | 0 <= j < |slots| :: Qualifies(slots[j], preferredAfter)
    ensures c.hasGoodSlots ==>
      && c.selected.Some? && c.selected.value < |slots|
      && Qualifies(slots[c.selected.value], preferredAfter)
      && forall j | 0 <= j < c.selected.value :: !Qualifies(slots[j], preferredAfter)
    ensures !c.hasGoodSlots && |slots| > 0 ==> c.selected == Some(0)
    ensures |slots| == 0 ==> c.selected.None?
    ensures c.selectedTime == if c.selected.Some? then slots[c.selected.value] else None
  {
    match FirstIndex(slots, t => Qualifies(t, preferredAfter))
    case Some(k) => SlotChoice(Some(k), slots[k], true)
    case None => if |slots| > 0 then SlotChoice(Some(0), slots[0], false) else SlotChoice(None, None, false)
  }

  /**
   * Whether the scan goes on to the alert and the search for the Continue
   * button: only when a slot was selected and its trimmed time text is
   * present and non-empty.
   */
  predicate GoesToContinue(c: SlotChoice) {
    c.selected.Some? && c.selectedTime.Some? && c.selectedTime.value != []
  }

  /**
   * A preferred slot always leads on to the alert and the Continue search; a
   * fallback does exactly when slot 0 has a time text.
   */
  lemma ContinueAfterChoice(slots: seq<SlotText>, preferredAfter: int)
    ensures BestSlot(slots, preferredAfter).hasGoodSlots ==> GoesToContinue(BestSlot(slots, preferredAfter))
    ensures !BestSlot(slots, preferredAfter).hasGoodSlots && |slots| > 0 ==>
      (GoesToContinue(BestSlot(slots, preferredAfter)) <==> slots[0].Some? && slots[0].value != [])
  {
    var c := BestSlot(slots, preferredAfter);
    if c.hasGoodSlots {
      assert Qualifies(slots[c.selected.value], preferredAfter);
    }
  }

  /**
   * `scanAndSelectBestSlot` over the visible slots, each given by its time
   * text. `inspected` is how many slots the loop read before it stopped:
   * the scan stops at the slot it selects.
   */
  method ScanAndSelectBestSlot(slots: seq<SlotText>, preferredAfter: int) returns (choice: SlotChoice, inspected: nat)
    ensures choice == BestSlot(slots, preferredAfter)
    ensures inspected == if choice.hasGoodSlots then choice.selected.value + 1 else |slots|
  {
    var selected: Option<nat> := None;
    var selectedTime: SlotText := None;
    var isAfterPreferredTime := false;
    inspected := 0;
    var i := 0;
    while i < |slots|
      invariant 0 <= i <= |slots| && inspected == i
      invariant forall j | 0 <= j < i :: !Qualifies(slots[j], preferredAfter)
      invariant selected.None? && selectedTime.None? && !isAfterPreferredTime
    {
      var timeText := slots[i];
      inspected := inspected + 1;
      if timeText.Some? && timeText.value != [] {
        var hour := ParseTimeToHour(timeText);
        if hour.Some? && hour.value >= preferredAfter {
          selected, selectedTime, isAfterPreferredTime := Some(i), timeText, true;
          break;
        }
      }
      i := i + 1;
    }
    if selected.None? && |slots| > 0 {
      selected, selectedTime, isAfterPreferredTime := Some(0), slots[0], false;
    }
    choice := SlotChoice(selected, selectedTime, isAfterPreferredTime);
  }
}
