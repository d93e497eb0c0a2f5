/**
 * The decision part of `pickAvailableDate`: keep the bookable dates after the
 * earliest date, try them in order until one has a slot at or after the
 * preferred hour, and otherwise go back to the first of them.
 */
module DateSelection {
  import opened Options
  import opened SlotSelection
  import opened TimeParse

  /**
   * A bookable calendar cell, by the day number of its date link; None when
   * the link or its date is missing, or the date does not parse (an invalid
   * date is never after the earliest date).
   */
  type Cell = Option<int>

  /** A cell kept by the filter: its position among the bookable cells and its day. */
  datatype SuitableDate = SuitableDate(cell: nat, date: int)

  predicate IsSuitable(cell: Cell, earliest: int) {
    cell.Some? && cell.value > earliest
  }

  /** The `map`/`filter` over the bookable cells, from position `from` on. */
  function SuitableDatesFrom(cells: seq<Cell>, earliest: int, from: nat): (r: seq<SuitableDate>)
    decreases |cells| - from
    ensures forall k | 0 <= k < |r| ::
      from <= r[k].cell < |cells| && cells[r[k].cell] == Some(r[k].date) && r[k].date > earliest
    ensures forall k, l | 0 <= k < l < |r| :: r[k].cell < r[l].cell
  {
    if from >= |cells| then []
    else if IsSuitable(cells[from], earliest) then [SuitableDate(from, cells[from].value)] + SuitableDatesFrom(cells, earliest, from + 1)
    else SuitableDatesFrom(cells, earliest, from + 1)
  }

  /**
   * The suitable dates: bookable cells whose day is strictly after `earliest`,
   * each with its own day, in the cells' order.
   */
  function SuitableDates(cells: seq<Cell>, earliest: int): (r: seq<SuitableDate>)
    ensures forall k | 0 <= k < |r| ::
      r[k].cell < |cells| && cells[r[k].cell] == Some(r[k].date) && r[k].date > earliest
    ensures forall k, l | 0 <= k < l < |r| :: r[k].cell < r[l].cell
  {
    SuitableDatesFrom(cells, earliest, 0)
  }

  lemma {:induction false} SuitableDatesFromComplete(cells: seq<Cell>, earliest: int, from: nat, c: nat)
    requires from <= c < |cells| && IsSuitable(cells[c], earliest)
    decreases c - from
    ensures SuitableDate(c, cells[c].value) in SuitableDatesFrom(cells, earliest, from)
  {
    if c > from {
      SuitableDatesFromComplete(cells, earliest, from + 1, c);
    }
  }

  /**
   * No suitable cell is dropped: together with the ensures of SuitableDates,
   * the suitable dates are exactly the cells after `earliest`, in order.
   */
  lemma SuitableDatesComplete(cells: seq<Cell>, earliest: int, c: nat)
    requires c < |cells| && IsSuitable(cells[c], earliest)
    ensures SuitableDate(c, cells[c].value) in SuitableDates(cells, earliest)
  {
    SuitableDatesFromComplete(cells, earliest, 0, c);
  }

  /**
   * The outcome of trying one date: its slots, when they appear after the
   * click (None when they never do), scanned for a slot at or after the
   * preferred hour.
   */
  predicate DateHasGoodSlots(slotsOn: nat -> Option<seq<SlotText>>, cell: nat, preferredAfter: int) {
    match slotsOn(cell)
    case Some(slots) => BestSlot(slots, preferredAfter).hasGoodSlots
    case None => false
  }

  /** The first n clicks were the first n suitable dates, in order. */
  predicate ClickedInOrder(clicks: seq<nat>, dates: seq<SuitableDate>, n: nat) {
    n <= |clicks| && n <= |dates| && forall j | 0 <= j < n :: clicks[j] == dates[j].cell
  }

  /**
   * The date-trying rule: with no suitable date, false and no click; else
   * the dates are clicked in order up to the first one with a preferred slot
   * (true), or all of them and then the first once more (false).
   */
  predicate TriedInOrder(dates: seq<SuitableDate>, slotsOn: nat -> Option<seq<SlotText>>, preferredAfter: int,
                         found: bool, clicks: seq<nat>)
  {
    && (found ==>
          && 0 < |clicks| <= |dates|
          && ClickedInOrder(clicks, dates, |clicks|)
          && DateHasGoodSlots(slotsOn, dates[|clicks| - 1].cell, preferredAfter)
          && forall j | 0 <= j < |clicks| - 1 :: !DateHasGoodSlots(slotsOn, dates[j].cell, preferredAfter))
    && (!found ==> forall j | 0 <= j < |dates| :: !DateHasGoodSlots(slotsOn, dates[j].cell, preferredAfter))
    && (!found && |dates| == 0 ==> clicks == [])
    && (!found && |dates| > 0 ==>
          && |clicks| == |dates| + 1
          && ClickedInOrder(clicks, dates, |dates|)
          && clicks[|dates|] == dates[0].cell)
  }

  /**
   * Whether the scan run after clicking a cell's date goes on to the alert
   * and the search for the Continue button: its slots appeared, and the slot
   * it selected (preferred or fallback) has a time text.
   */
  predicate TryContinues(slotsOn: nat -> Option<seq<SlotText>>, cell: nat, preferredAfter: int) {
    match slotsOn(cell)
    case Some(slots) => GoesToContinue(BestSlot(slots, preferredAfter))
    case None => false
  }

  /**
   * One try (the `try` block around the scan): wait for the clicked date's
   * slots and scan them. `good` is the scan's `hasGoodSlots`, `goes` whether
   * it went on to the alert and Continue; both are false when no slot appears.
   */
  method TryDate(slotsOn: nat -> Option<seq<SlotText>>, cell: nat, preferredAfter: int)
    returns (good: bool, goes: bool)
    ensures good == DateHasGoodSlots(slotsOn, cell, preferredAfter)
    ensures goes == TryContinues(slotsOn, cell, preferredAfter)
    ensures good ==> goes
  {
    var slots := slotsOn(cell);
    if slots.Some? {
      var result, _ := ScanAndSelectBestSlot(slots.value, preferredAfter);
      ContinueAfterChoice(slots.value, preferredAfter);
      good, goes := result.hasGoodSlots, GoesToContinue(result);
    } else {
      good, goes := false, false;
    }
  }

  /**
   * The loop that tries the suitable dates in order until one has a
   * preferred slot. `continued[j]` says whether try j went on to the alert
   * and Continue: as written (`commitEachTry`) every try's scan does, on
   * its preferred or its fallback slot; otherwise only a try that found a
   * preferred slot does.
   */
  method TryDatesInOrder(dates: seq<SuitableDate>, slotsOn: nat -> Option<seq<SlotText>>, preferredAfter: int,
                         commitEachTry: bool)
    returns (found: bool, clicks: seq<nat>, continued: seq<bool>)
    ensures |continued| == |clicks|
    ensures found ==>
      && 0 < |clicks| <= |dates|
      && ClickedInOrder(clicks, dates, |clicks|)
      && DateHasGoodSlots(slotsOn, dates[|clicks| - 1].cell, preferredAfter)
      && forall j | 0 <= j < |clicks| - 1 :: !DateHasGoodSlots(slotsOn, dates[j].cell, preferredAfter)
    ensures !found ==>
      && |clicks| == |dates|
      && ClickedInOrder(clicks, dates, |dates|)
      && forall j | 0 <= j < |dates| :: !DateHasGoodSlots(slotsOn, dates[j].cell, preferredAfter)
    ensures forall j | 0 <= j < |clicks| ::
      continued[j] == if commitEachTry then TryContinues(slotsOn, clicks[j], preferredAfter)
                      else DateHasGoodSlots(slotsOn, clicks[j], preferredAfter)
  {
    clicks, continued := [], [];
    found := false;
    var i := 0;
    while i < |dates|
      invariant 0 <= i <= |dates| && |clicks| == i && |continued| == i
      invariant ClickedInOrder(clicks, dates, i)
      invariant forall j | 0 <= j < i :: !DateHasGoodSlots(slotsOn, dates[j].cell, preferredAfter)
      invariant forall j | 0 <= j < i ::
        continued[j] == if commitEachTry then TryContinues(slotsOn, clicks[j], preferredAfter)
                        else DateHasGoodSlots(slotsOn, clicks[j], preferredAfter)
    {
      var dateInfo := dates[i];
      clicks := clicks + [dateInfo.cell];
      var good, goes := TryDate(slotsOn, dateInfo.cell, preferredAfter);
      continued := continued + [if commitEachTry then goes else good];
      if good {
        found := true;
        return;
      }
      i := i + 1;
    }
  }

  /**
   * `pickAvailableDate`, as written. `slotsOn` gives, per bookable cell, the
   * visible slots the page shows once its date is clicked. `found` is the
   * returned flag; `clicks` lists the cells whose date links were clicked, in
   * order; `continued[j]` says whether the scan after click j went on to the
   * alert and the search for the Continue button. Every try runs the full
   * scan, so a date without a preferred slot has its slot 0 selected, and
   * goes on towards Continue, before the next date is clicked.
   */
  method PickAvailableDate(cells: seq<Cell>, earliest: int, preferredAfter: int,
                           slotsOn: nat -> Option<seq<SlotText>>)
    returns (found: bool, clicks: seq<nat>, continued: seq<bool>)
    ensures TriedInOrder(SuitableDates(cells, earliest), slotsOn, preferredAfter, found, clicks)
    ensures |continued| == |clicks|
    ensures forall j | 0 <= j < |clicks| :: continued[j] == TryContinues(slotsOn, clicks[j], preferredAfter)
  {
    var suitableDates := SuitableDates(cells, earliest);
    if |suitableDates| == 0 {
      found, clicks, continued := false, [], [];
      return;
    }
    found, clicks, continued := TryDatesInOrder(suitableDates, slotsOn, preferredAfter, true);
    if found {
      return;
    }
    // No date had a preferred slot: click the first suitable date again and
    // let the scan fall back to its first slot.
    var firstDate := suitableDates[0];
    clicks := clicks + [firstDate.cell];
    var _, goes := TryDate(slotsOn, firstDate.cell, preferredAfter);
    continued := continued + [goes];
  }

  /**
   * Two bookable days with the same single slot at 9:00am and a preferred
   * hour of 10: the as-written search goes on to Continue on the first day's
   * fallback slot and still clicks the second day afterwards.
   */
  method FailedTryContinues() returns (found: bool, clicks: seq<nat>, continued: seq<bool>)
    ensures !found && clicks == [0, 1, 0] && continued == [true, true, true]
  {
    var nine := ClockText(9, 0, false);
    ParseClockText([], 9, 0, false, []);
    assert [] + nine + [] == nine;
    var slots: seq<SlotText> := [Some(nine)];
    assert !Qualifies(slots[0], 10);
    assert GoesToContinue(BestSlot(slots, 10));
    var cells: seq<Cell> := [Some(5), Some(6)];
    SuitableDatesComplete(cells, 0, 0);
    SuitableDatesComplete(cells, 0, 1);
    var dates := SuitableDates(cells, 0);
    assert dates == [SuitableDate(0, 5), SuitableDate(1, 6)];
    var slotsOn: nat -> Option<seq<SlotText>> := c => Some(slots);
    assert !DateHasGoodSlots(slotsOn, 0, 10) && !DateHasGoodSlots(slotsOn, 1, 10);
    assert TryContinues(slotsOn, 0, 10) && TryContinues(slotsOn, 1, 10);
    found, clicks, continued := PickAvailableDate(cells, 0, 10, slotsOn);
    assert !found && |clicks| == 3;
  }

  /**
   * `pickAvailableDate` as its comments describe it: each date is only
   * checked for a preferred slot; a slot is selected and Continue sought
   * only for a preferred slot or in the final fallback, so nothing goes on
   * towards Continue before the last click.
   */
  method PickAvailableDateDeferred(cells: seq<Cell>, earliest: int, preferredAfter: int,
                                   slotsOn: nat -> Option<seq<SlotText>>)
    returns (found: bool, clicks: seq<nat>, continued: seq<bool>)
    ensures TriedInOrder(SuitableDates(cells, earliest), slotsOn, preferredAfter, found, clicks)
    ensures |continued| == |clicks|
    ensures forall j | 0 <= j < |clicks| - 1 :: !continued[j]
    ensures |clicks| > 0 ==> continued[|clicks| - 1] == TryContinues(slotsOn, clicks[|clicks| - 1], preferredAfter)
  {
    var suitableDates := SuitableDates(cells, earliest);
    if |suitableDates| == 0 {
      found, clicks, continued := false, [], [];
      return;
    }
    found, clicks, continued := TryDatesInOrder(suitableDates, slotsOn, preferredAfter, false);
    if found {
      assert DateHasGoodSlots(slotsOn, clicks[|clicks| - 1], preferredAfter);
      return;
    }
    var firstDate := suitableDates[0];
    clicks := clicks + [firstDate.cell];
    var _, goes := TryDate(slotsOn, firstDate.cell, preferredAfter);
    continued := continued + [goes];
  }
}
