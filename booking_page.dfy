/**
 * The public booking page: the duration choice, picking a slot from the
 * grid, and the price it shows before the request is sent.
 *
 * The page's price is the hourly rate times the duration in hours, without
 * rounding, computed from the pricing block of the availability answer; the
 * lemmas at the end compare it with the price the create route stores.
 */
module BookingPage {
  import opened Wrappers
  import opened TimeUtils
  import opened Domain
  import opened Availability
  import opened TimeGrid
  import opened PublicBookings

  /** The durations offered, in minutes, and the one selected at first. */
  const Durations: seq<nat> := [60, 120]
  const DefaultDuration: nat := 60

  lemma DefaultDurationOffered()
    ensures DefaultDuration in Durations && |Durations| == 2
  {
  }

  /** `handleSlotClick`: a free slot is selected with its end moved to start plus the duration; any other is ignored. */
  function SelectSlot(slot: SlotView, duration: nat): (selected: Option<SlotView>)
    ensures selected.Some? <==> slot.status == Free
    ensures selected.Some? ==> selected.value == slot.(end := EndTime(slot.start, duration))
  {
    if slot.status != Free then None else Some(slot.(end := EndTime(slot.start, duration)))
  }

  /** A slot the server generated, selected for a duration, ends that many minutes after it starts. */
  lemma SelectedEndFollowsDuration(slot: SlotView, start: nat, duration: nat, end: nat)
    requires slot.status == Free && slot.start == FormatTime(start) && end == start + duration
    ensures SelectSlot(slot, duration).value.start == FormatTime(start)
    ensures SelectSlot(slot, duration).value.end == FormatTime(end)
  {
    EndTimeOfFormatted(start, duration, end);
  }

  /** `getPrice`: 0 without pricing or a selected slot, else the start hour's rate times the hours, unrounded. */
  function ClientPrice(pricing: Option<Pricing>, selected: Option<SlotView>, duration: nat): (price: real)
    ensures pricing.None? || selected.None? ==> price == 0.0
    ensures pricing.Some? && selected.Some? ==>
      price == (if IsEvening(selected.value.start) then pricing.value.priceEvening else pricing.value.pricePerHour) as real
               * (duration as real / 60.0)
  {
    if pricing.None? || selected.None? then 0.0
    else
      var rate := if IsEvening(selected.value.start) then pricing.value.priceEvening else pricing.value.pricePerHour;
      rate as real * (duration as real / 60.0)
  }

  /** The rate the page reads from the availability answer is the rate the create route charges. */
  lemma ClientRateIsServerRate(settings: Option<Settings>, start: string)
    ensures (if IsEvening(start) then PricingOf(settings).priceEvening else PricingOf(settings).pricePerHour)
      == Rate(start, settings)
  {
  }

  /** Between times read a whole number of hours apart the route charges the rate times the hours. */
  lemma ServerPriceOfWholeHours(settings: Option<Settings>, start: string, end: string, hours: nat)
    requires DurationMinutes(start, end).Some? && DurationMinutes(start, end).value == 60 * hours
    ensures ServerPrice(start, end, settings) == Some(Rate(start, settings) * hours)
  {
    PriceOfDuration(start, end, settings, DurationMinutes(start, end).value);
    WholeHoursExact(Rate(start, settings), hours);
  }

  /** For a whole number of hours the page's product is a whole number. */
  lemma ClientPriceOfWholeHours(pricing: Pricing, selected: SlotView, hours: nat)
    ensures ClientPrice(Some(pricing), Some(selected), 60 * hours)
      == ((if IsEvening(selected.start) then pricing.priceEvening else pricing.pricePerHour) * hours) as real
  {
  }

  /**
   * For the offered durations the shown price is the stored price: a slot
   * the server generated at minute `start`, selected for 60 or 120 minutes,
   * is charged the same by the page and by the create route.
   */
  lemma OfferedDurationsPriceAlike(settings: Option<Settings>, slot: SlotView, start: nat, duration: nat)
    requires duration in Durations
    requires slot.status == Free && slot.start == FormatTime(start)
    ensures var selected := SelectSlot(slot, duration);
      ServerPrice(selected.value.start, selected.value.end, settings).Some?
      && ClientPrice(Some(PricingOf(settings)), selected, duration)
         == ServerPrice(selected.value.start, selected.value.end, settings).value as real
  {
    SelectedReadsDuration(slot, start, duration);
    SelectionPriceAlike(settings, slot, duration);
  }

  /** A generated slot's selection reads back as the minutes it spans. */
  lemma SelectedReadsDuration(slot: SlotView, start: nat, duration: nat)
    requires slot.status == Free && slot.start == FormatTime(start)
    ensures var selected := SelectSlot(slot, duration).value;
      DurationMinutes(selected.start, selected.end).Some?
      && DurationMinutes(selected.start, selected.end).value == duration
  {
    var end := start + duration;
    FormatTimeRoundTrip(start);
    EndTimeOfRead(FormatTime(start), start, duration, end);
    SelectionReadsAs(slot, duration, FormatTime(start), FormatTime(end));
    DurationOfFormattedTimes(start, end);
  }

  /** A selection spans what its start and the end the page computes for it read as. */
  lemma SelectionReadsAs(slot: SlotView, duration: nat, startText: string, endText: string)
    requires slot.status == Free && slot.start == startText
    requires EndTime(startText, duration) == endText
    ensures DurationMinutes(SelectSlot(slot, duration).value.start, SelectSlot(slot, duration).value.end)
      == DurationMinutes(startText, endText)
  {
  }

  /** A selection that reads back as an offered duration is charged alike by the page and the route. */
  lemma SelectionPriceAlike(settings: Option<Settings>, slot: SlotView, duration: nat)
    requires duration in Durations && slot.status == Free
    requires var selected := SelectSlot(slot, duration).value;
      DurationMinutes(selected.start, selected.end).Some?
      && DurationMinutes(selected.start, selected.end).value == duration
    ensures var selected := SelectSlot(slot, duration);
      ServerPrice(selected.value.start, selected.value.end, settings).Some?
      && ClientPrice(Some(PricingOf(settings)), selected, duration)
         == ServerPrice(selected.value.start, selected.value.end, settings).value as real
  {
    var hours: nat := if duration == 60 then 1 else 2;
    assert duration == 60 * hours;
    WholeHoursPriceAlike(settings, SelectSlot(slot, duration).value, hours);
  }

  /** For a selection read a whole number of hours long, the page and the route charge the same. */
  lemma WholeHoursPriceAlike(settings: Option<Settings>, selected: SlotView, hours: nat)
    requires DurationMinutes(selected.start, selected.end).Some?
    requires DurationMinutes(selected.start, selected.end).value == 60 * hours
    ensures ServerPrice(selected.start, selected.end, settings).Some?
    ensures ClientPrice(Some(PricingOf(settings)), Some(selected), 60 * hours)
      == ServerPrice(selected.start, selected.end, settings).value as real
  {
    ServerPriceOfWholeHours(settings, selected.start, selected.end, hours);
    ClientPriceOfWholeHours(PricingOf(settings), selected, hours);
    ClientRateIsServerRate(settings, selected.start);
  }

  /** The page does not round: at rate 1, ninety minutes show as 1.5 while the route stores 2. */
  lemma ClientPriceUnrounded(pricing: Pricing, slot: SlotView)
    requires pricing.pricePerHour == 1 && pricing.priceEvening == 1
    ensures ClientPrice(Some(pricing), Some(slot), 90) == 1.5
    ensures RoundedPrice(1, 90) == 2
  {
  }
}
