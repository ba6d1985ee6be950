/**
 * The slot grid of one field on the booking page: which slots can start a
 * booking of the chosen duration, how each one is shown, how many are
 * offered, and what a click hands to the page.
 *
 * A booking longer than an hour needs the following slots as well: the grid
 * assumes one-hour slots, so it needs ceil(duration / 60) consecutive free
 * slots, the one clicked included.
 */
module TimeGrid {
  import opened Wrappers
  import opened Text
  import opened TimeUtils
  import opened Domain
  import opened Availability

  const Unavailable: string := "unavailable"

  /** `getEndTime`: the start plus the duration as "HH:MM", with no wrap; an unreadable start gives "NaN:NaN". */
  function EndTime(startTime: string, duration: nat): (end: string)
    ensures ToMinutes(startTime).Some? ==> ToMinutes(end) == Some(ToMinutes(startTime).value + duration)
    ensures ToMinutes(startTime).None? ==> end == "NaN:NaN"
  {
    match ToMinutes(startTime)
    case Some(m) =>
      FormatTimeRoundTrip(m + duration);
      FormatTime(m + duration)
    case None => "NaN:NaN"
  }

  /** On a formatted start, the end is the formatted sum. */
  lemma EndTimeOfFormatted(start: nat, duration: nat, end: nat)
    requires end == start + duration
    ensures EndTime(FormatTime(start), duration) == FormatTime(end)
  {
    FormatTimeRoundTrip(start);
    EndTimeOfRead(FormatTime(start), start, duration, end);
  }

  /** A start that reads as minute `m` ends at the formatted minute `m + duration`. */
  lemma EndTimeOfRead(startTime: string, m: nat, duration: nat, end: nat)
    requires ToMinutes(startTime) == Some(m) && end == m + duration
    ensures EndTime(startTime, duration) == FormatTime(end)
  {
    match ToMinutes(startTime)
    case Some(k) =>
      assert k == m;
      assert k + duration == end;
  }

  lemma Minute1500Text()
    ensures FormatTime(1500) == "25:00"
  {
    WholeHourText(25);
  }

  /** A two-hour booking from 23:00 is shown ending at "25:00". */
  lemma EndTimeDoesNotWrap()
    ensures EndTime(FormatTime(1380), 120) == "25:00"
  {
    EndTimeOfFormatted(1380, 120, 1500);
    Minute1500Text();
  }

  /** How many one-hour slots a booking of `duration` minutes covers: the loop's `i < duration / 60` steps. */
  function SlotsNeeded(duration: nat): (n: nat)
    ensures forall i: nat :: i < n <==> 60 * i < duration
  {
    (duration + 59) / 60
  }

  /** The slots from `index` on that the booking needs all exist and are free (always, for an hour or less). */
  function FitsDuration(slots: seq<SlotView>, duration: nat, index: nat): (r: bool)
    ensures duration <= 60 ==> r
    ensures r && duration > 60 ==> index + 1 < |slots| && slots[index].status == Free && slots[index + 1].status == Free
  {
    duration <= 60
    || (index + SlotsNeeded(duration) <= |slots|
        && forall k | index <= k < index + SlotsNeeded(duration) :: slots[k].status == Free)
  }

  /** `canFitDuration(slotIndex)`: walks the needed slots and stops at the first missing or taken one. */
  method CanFitDuration(slots: seq<SlotView>, duration: nat, slotIndex: nat) returns (fits: bool)
    ensures fits == FitsDuration(slots, duration, slotIndex)
  {
    if duration <= 60 {
      return true;
    }
    var i: nat := 0;
    while 60 * i < duration
      invariant i <= SlotsNeeded(duration)
      invariant i == 0 || slotIndex + i <= |slots|
      invariant forall k | slotIndex <= k < slotIndex + i :: slots[k].status == Free
      decreases duration - 60 * i
    {
      var idx := slotIndex + i;
      if idx >= |slots| {
        return false;
      }
      if slots[idx].status != Free {
        return false;
      }
      i := i + 1;
    }
    return true;
  }

  /** A slot can be booked from the grid: it is free and the booking fits. */
  function IsClickable(slots: seq<SlotView>, duration: nat, index: nat): (r: bool)
    requires index < |slots|
    ensures r ==> slots[index].status == Free
    ensures slots[index].status == Free && duration <= 60 ==> r
  {
    slots[index].status == Free && FitsDuration(slots, duration, index)
  }

  /** The status a slot is drawn with: a free slot the booking cannot fit shows as unavailable. */
  function EffectiveStatus(slots: seq<SlotView>, duration: nat, index: nat): (status: string)
    requires index < |slots|
    ensures IsClickable(slots, duration, index) ==> status == Free
    ensures slots[index].status == Free && !FitsDuration(slots, duration, index) ==> status == Unavailable
    ensures slots[index].status != Free ==> status == slots[index].status
  {
    if slots[index].status == Free && !FitsDuration(slots, duration, index) then Unavailable
    else slots[index].status
  }

  /** The slot a click on `index` hands to `onSlotClick`, or None when the click does nothing. */
  function Click(slots: seq<SlotView>, duration: nat, index: nat): (picked: Option<SlotView>)
    requires index < |slots|
    ensures picked.Some? <==> IsClickable(slots, duration, index)
    ensures picked.Some? ==> picked.value == slots[index] && picked.value.status == Free
  {
    if IsClickable(slots, duration, index) then Some(slots[index]) else None
  }

  /** Free slots from `from` on. */
  function FreeFrom(slots: seq<SlotView>, from: nat): nat
    decreases |slots| - from
  {
    if from >= |slots| then 0
    else (if slots[from].status == Free then 1 else 0) + FreeFrom(slots, from + 1)
  }

  /** Clickable slots from `from` on. */
  function AvailableFrom(slots: seq<SlotView>, duration: nat, from: nat): nat
    decreases |slots| - from
  {
    if from >= |slots| then 0
    else (if IsClickable(slots, duration, from) then 1 else 0) + AvailableFrom(slots, duration, from + 1)
  }

  /** `availableCount`: the slots that are free and can fit the booking. */
  function AvailableCount(slots: seq<SlotView>, duration: nat): (n: nat)
    ensures n <= |slots|
  {
    AvailableFromAtMost(slots, duration, 0);
    AvailableFrom(slots, duration, 0)
  }

  /** At most one clickable slot per position from `from` on. */
  lemma {:induction false} AvailableFromAtMost(slots: seq<SlotView>, duration: nat, from: nat)
    requires from <= |slots|
    ensures AvailableFrom(slots, duration, from) <= |slots| - from
    decreases |slots| - from
  {
    if from < |slots| {
      AvailableFromAtMost(slots, duration, from + 1);
    }
  }

  lemma {:induction false} AvailableFromBounds(slots: seq<SlotView>, duration: nat, from: nat)
    ensures AvailableFrom(slots, duration, from) <= FreeFrom(slots, from)
    ensures duration <= 60 ==> AvailableFrom(slots, duration, from) == FreeFrom(slots, from)
    decreases |slots| - from
  {
    if from < |slots| {
      AvailableFromBounds(slots, duration, from + 1);
    }
  }

  /** The offered count never exceeds the free slots, and equals them for bookings of an hour or less. */
  lemma AvailableAtMostFree(slots: seq<SlotView>, duration: nat)
    ensures AvailableCount(slots, duration) <= FreeFrom(slots, 0)
    ensures duration <= 60 ==> AvailableCount(slots, duration) == FreeFrom(slots, 0)
  {
    AvailableFromBounds(slots, duration, 0);
  }

  /** A two-hour booking fits at a free slot exactly when the next slot exists and is free too. */
  lemma TwoHourFit(slots: seq<SlotView>, index: nat)
    requires index < |slots| && slots[index].status == Free
    ensures FitsDuration(slots, 120, index) <==> index + 1 < |slots| && slots[index + 1].status == Free
  {
    assert SlotsNeeded(120) == 2;
  }
}
