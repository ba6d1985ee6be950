/**
 * The availability endpoint: for one date, every active field with its
 * one-hour slot grid, each slot marked by the first held booking of that
 * field that overlaps it, or "free".
 *
 * The endpoint only reads: the whole answer is a function of the query, the
 * settings, the fields and the stored bookings. Turning a date into the next
 * calendar date is done by the host's date library and is a parameter here;
 * None stands for a date that library cannot read, where it throws.
 */
module Availability {
  import opened Wrappers
  import opened Seqs
  import opened Sorting
  import opened TimeUtils
  import opened Domain

  /** `isPastMidnight`: the closing minute is not after the opening minute. NaN compares false. */
  function IsPastMidnight(openingTime: string, closingTime: string): (r: bool)
    ensures r ==> ToMinutes(openingTime).Some? && ToMinutes(closingTime).Some?
    ensures r ==> TimeSlots(openingTime, closingTime, 60) == []
  {
    match (ToMinutes(openingTime), ToMinutes(closingTime))
    case (Some(open), Some(close)) => close <= open
    case _ => false
  }

  /** On formatted times, the schedule crosses midnight exactly when closing is at or before opening. */
  lemma PastMidnightOfMinutes(open: nat, close: nat)
    ensures IsPastMidnight(FormatTime(open), FormatTime(close)) <==> close <= open
  {
    FormatTimeRoundTrip(open);
    FormatTimeRoundTrip(close);
  }

  /** The default schedule 06:00 to 24:00 does not cross midnight. */
  lemma DefaultScheduleDoesNotCross()
    ensures !IsPastMidnight("06:00", "24:00")
  {
    DefaultTimes();
  }

  /**
   * `isNextDaySlot`: false unless the schedule crosses midnight; then true
   * when the slot's hour is at or before the closing hour.
   */
  function IsNextDaySlot(slotStart: string, openingTime: string, closingTime: string): (r: bool)
    ensures r ==> IsPastMidnight(openingTime, closingTime)
  {
    if !IsPastMidnight(openingTime, closingTime) then false
    else
      match (HourOf(slotStart), HourOf(closingTime))
      case (Some(slotH), Some(closeH)) => slotH < closeH || slotH == closeH
      case _ => false
  }

  /** On a crossing schedule with readable hours, a slot is on the next day exactly when its hour is at most the closing hour. */
  lemma NextDaySlotByHour(slotStart: string, openingTime: string, closingTime: string, slotH: nat, closeH: nat)
    requires IsPastMidnight(openingTime, closingTime)
    requires HourOf(slotStart) == Some(slotH) && HourOf(closingTime) == Some(closeH)
    ensures IsNextDaySlot(slotStart, openingTime, closingTime) <==> slotH <= closeH
  {
  }

  /** The query string: `date` and `field`, each absent or empty when not given. */
  datatype Query = Query(date: Option<string>, field: Option<string>)

  /** The part of a booking the grid shows. */
  datatype BookingSummary = BookingSummary(
    id: string,
    customerName: Option<string>,
    startTime: string,
    endTime: string,
    status: string,
    blockReason: Option<string>)

  datatype SlotView = SlotView(start: string, end: string, status: string, booking: Option<BookingSummary>, actualDate: string)

  datatype FieldInfo = FieldInfo(id: string, name: string, surface: string, description: string)

  datatype FieldAvailability = FieldAvailability(field: FieldInfo, slots: seq<SlotView>)

  datatype Pricing = Pricing(pricePerHour: int, priceEvening: int, slotDurations: string, currency: string)

  datatype Response = Response(
    date: string,
    openingTime: string,
    closingTime: string,
    settings: Pricing,
    availability: seq<FieldAvailability>)

  function OpeningTime(settings: Option<Settings>): string
  {
    if settings.Some? then OrElse(Some(settings.value.openingTime), "06:00") else "06:00"
  }

  function ClosingTime(settings: Option<Settings>): string
  {
    if settings.Some? then OrElse(Some(settings.value.closingTime), "24:00") else "24:00"
  }

  /** The pricing block of the answer, each entry falling back to its default when unset, zero or empty. */
  function PricingOf(settings: Option<Settings>): (p: Pricing)
    ensures settings.None? ==> p == Pricing(200000, 300000, "[60,120]", "UZS")
    ensures settings.Some? ==>
      && p.pricePerHour == (if settings.value.pricePerHour == 0 then 200000 else settings.value.pricePerHour)
      && p.priceEvening == (if settings.value.priceEvening == 0 then 300000 else settings.value.priceEvening)
      && p.slotDurations == (if settings.value.slotDurations == "" then "[60,120]" else settings.value.slotDurations)
      && p.currency == (if settings.value.currency == "" then "UZS" else settings.value.currency)
  {
    match settings
    case None => Pricing(200000, 300000, "[60,120]", "UZS")
    case Some(s) =>
      Pricing(OrElseNumber(s.pricePerHour, 200000), OrElseNumber(s.priceEvening, 300000),
              OrElse(Some(s.slotDurations), "[60,120]"), OrElse(Some(s.currency), "UZS"))
  }

  function Summary(b: Booking): BookingSummary
  {
    BookingSummary(b.id, b.customerName, b.startTime, b.endTime, b.status, b.blockReason)
  }

  function Info(f: Field): FieldInfo
  {
    FieldInfo(f.id, f.name, f.surface, f.description)
  }

  function FieldOrderLe(a: Field, b: Field): bool
  {
    a.order <= b.order
  }

  /** The field query admits `id`: no (or an empty) field filter, or the same id. */
  predicate FieldSelected(fieldQuery: Option<string>, id: string)
  {
    !Truthy(fieldQuery) || id == fieldQuery.value
  }

  /** The active fields in `order`, then restricted to the requested field. */
  function ShownFields(fields: seq<Field>, fieldQuery: Option<string>): (shown: seq<Field>)
    ensures |shown| <= |fields|
    ensures forall f :: f in shown ==> f in fields && f.active && FieldSelected(fieldQuery, f.id)
  {
    var active := Filter(fields, (f: Field) => f.active);
    var sorted := SortBy(active, FieldOrderLe);
    SortByKeepsMembers(active, FieldOrderLe);
    Filter(sorted, (f: Field) => FieldSelected(fieldQuery, f.id))
  }

  /** The bookings query: held bookings on the date, or on the next date when crossing midnight, of the requested field. */
  function FetchedBookings(store: seq<Booking>, date: string, next: string, crosses: bool, fieldQuery: Option<string>)
    : (fetched: seq<Booking>)
    ensures multiset(fetched) <= multiset(store)
    ensures forall b :: b in fetched ==> IsHeld(b.status) && (b.date == date || b.date == next)
    ensures forall b :: b in store && b.date == date && IsHeld(b.status) && FieldSelected(fieldQuery, b.fieldId) ==> b in fetched
  {
    Filter(store, (b: Booking) => (b.date == date || (crosses && b.date == next)) && IsHeld(b.status) && FieldSelected(fieldQuery, b.fieldId))
  }

  /** The date a slot really belongs to. */
  function SlotDate(slot: TimeSlot, openingTime: string, closingTime: string, date: string, next: string): string
  {
    if IsNextDaySlot(slot.start, openingTime, closingTime) then next else date
  }

  /** One slot of one field: the first of the field's bookings on the slot's date that overlaps it. */
  function SlotFor(slot: TimeSlot, fieldBookings: seq<Booking>, slotDate: string): (v: SlotView)
    ensures v.start == slot.start && v.end == slot.end && v.actualDate == slotDate
    ensures v.booking.None? <==>
      forall b :: b in fieldBookings ==> !(b.date == slotDate && IsTimeOverlap(slot.start, slot.end, b.startTime, b.endTime))
    ensures v.booking.Some? ==>
      exists b :: && b in fieldBookings && b.date == slotDate
                  && IsTimeOverlap(slot.start, slot.end, b.startTime, b.endTime)
                  && v.status == b.status && v.booking == Some(Summary(b))
  {
    var hit := Find(fieldBookings, (b: Booking) => b.date == slotDate && IsTimeOverlap(slot.start, slot.end, b.startTime, b.endTime));
    match hit
    case None => SlotView(slot.start, slot.end, Free, None, slotDate)
    case Some(b) => SlotView(slot.start, slot.end, b.status, Some(Summary(b)), slotDate)
  }

  function FieldSlots(field: Field, fetched: seq<Booking>, slots: seq<TimeSlot>,
                      openingTime: string, closingTime: string, date: string, next: string): (views: seq<SlotView>)
    ensures |views| == |slots|
  {
    var fieldBookings := Filter(fetched, (b: Booking) => b.fieldId == field.id);
    seq(|slots|, k requires 0 <= k < |slots| =>
      SlotFor(slots[k], fieldBookings, SlotDate(slots[k], openingTime, closingTime, date, next)))
  }

  /** `GET /api/availability`. */
  function GetAvailability(query: Query, settings: Option<Settings>, fields: seq<Field>, store: seq<Booking>,
                           nextDate: string -> Option<string>): (r: Result<Response, ApiError>)
    ensures r.Err? ==> r.error == MissingDate || r.error == ServerError
    ensures Truthy(query.date) && nextDate(query.date.value).None? ==> r == Err(ServerError)
    ensures r.Ok? ==>
      && Truthy(query.date) && r.value.date == query.date.value
      && |r.value.availability| == |ShownFields(fields, query.field)|
  {
    if !Truthy(query.date) then Err(MissingDate)
    else
      var date := query.date.value;
      var openingTime := OpeningTime(settings);
      var closingTime := ClosingTime(settings);
      var crosses := IsPastMidnight(openingTime, closingTime);
      if nextDate(date).None? then Err(ServerError)
      else
        var next := nextDate(date).value;
        var shown := ShownFields(fields, query.field);
        var fetched := FetchedBookings(store, date, next, crosses, query.field);
        var slots := TimeSlots(openingTime, closingTime, 60);
        var grid := seq(|shown|, i requires 0 <= i < |shown| =>
          FieldAvailability(Info(shown[i]), FieldSlots(shown[i], fetched, slots, openingTime, closingTime, date, next)));
        Ok(Response(date, openingTime, closingTime, PricingOf(settings), grid))
  }

  /** A missing or empty date is answered 400 before anything is read; a readable date always gets a grid. */
  lemma DateRequired(query: Query, settings: Option<Settings>, fields: seq<Field>, store: seq<Booking>,
                     nextDate: string -> Option<string>)
    ensures !Truthy(query.date) <==> GetAvailability(query, settings, fields, store, nextDate) == Err(MissingDate)
    ensures Truthy(query.date) && nextDate(query.date.value).Some?
      ==> GetAvailability(query, settings, fields, store, nextDate).Ok?
  {
  }

  /** Without settings the answer uses 06:00 to 24:00, 200000 by day, 300000 in the evening, durations [60,120] and UZS. */
  lemma DefaultsWithoutSettings(query: Query, fields: seq<Field>, store: seq<Booking>, nextDate: string -> Option<string>)
    requires GetAvailability(query, None, fields, store, nextDate).Ok?
    ensures var r := GetAvailability(query, None, fields, store, nextDate).value;
      && r.openingTime == "06:00" && r.closingTime == "24:00"
      && r.settings == Pricing(200000, 300000, "[60,120]", "UZS")
  {
  }

  /**
   * The fields of the answer: one entry per active field, in `order`, only
   * the requested one when a field is given, and every such field appears.
   */
  lemma ShownFieldsAreActiveSelectedAndOrdered(fields: seq<Field>, fieldQuery: Option<string>)
    ensures forall f :: f in ShownFields(fields, fieldQuery) <==> f in fields && f.active && FieldSelected(fieldQuery, f.id)
    ensures SortedBy(ShownFields(fields, fieldQuery), FieldOrderLe)
  {
    var active := Filter(fields, (f: Field) => f.active);
    SortBySorted(active, FieldOrderLe);
    var sorted := SortBy(active, FieldOrderLe);
    FilterKeepsSorted(sorted, FieldOrderLe, (f: Field) => FieldSelected(fieldQuery, f.id));
    forall f
      ensures f in sorted <==> f in active
    {
      SortByMembers(active, FieldOrderLe, f);
    }
  }

  /**
   * The booking that decides a slot: the first stored booking of the field,
   * on the slot's date, held, that overlaps the slot.
   */
  function Occupant(store: seq<Booking>, fieldId: string, slotDate: string, slot: TimeSlot): (r: Option<Booking>)
    ensures r.Some? ==> r.value in store && IsHeld(r.value.status)
  {
    Find(store, (b: Booking) => b.fieldId == fieldId && b.date == slotDate && IsHeld(b.status)
                     && IsTimeOverlap(slot.start, slot.end, b.startTime, b.endTime))
  }

  /** Of several held bookings overlapping a slot, the slot shows the one stored first. */
  lemma OccupantIsFirst(store: seq<Booking>, fieldId: string, slotDate: string, slot: TimeSlot, i: nat)
    requires i < |store|
    requires store[i].fieldId == fieldId && store[i].date == slotDate && IsHeld(store[i].status)
    requires IsTimeOverlap(slot.start, slot.end, store[i].startTime, store[i].endTime)
    requires forall j | 0 <= j < i :: !(store[j].fieldId == fieldId && store[j].date == slotDate && IsHeld(store[j].status)
                                        && IsTimeOverlap(slot.start, slot.end, store[j].startTime, store[j].endTime))
    ensures Occupant(store, fieldId, slotDate, slot) == Some(store[i])
  {
    FindIsFirst(store, (b: Booking) => b.fieldId == fieldId && b.date == slotDate && IsHeld(b.status)
                         && IsTimeOverlap(slot.start, slot.end, b.startTime, b.endTime), i);
  }

  /** The view of a slot, given the booking that decides it. */
  function ViewOf(slot: TimeSlot, occupant: Option<Booking>, slotDate: string): SlotView
  {
    match occupant
    case None => SlotView(slot.start, slot.end, Free, None, slotDate)
    case Some(b) => SlotView(slot.start, slot.end, b.status, Some(Summary(b)), slotDate)
  }

  /** Narrowing the store by the bookings query and then by field finds the occupant of the whole store. */
  lemma FieldSlotIsOccupant(store: seq<Booking>, field: Field, fieldQuery: Option<string>, slot: TimeSlot,
                            date: string, next: string, crosses: bool, slotDate: string)
    requires FieldSelected(fieldQuery, field.id)
    requires slotDate == date || (crosses && slotDate == next)
    ensures var fieldBookings := Filter(FetchedBookings(store, date, next, crosses, fieldQuery), (b: Booking) => b.fieldId == field.id);
      SlotFor(slot, fieldBookings, slotDate) == ViewOf(slot, Occupant(store, field.id, slotDate, slot), slotDate)
  {
    var p1 := (b: Booking) => (b.date == date || (crosses && b.date == next)) && IsHeld(b.status) && FieldSelected(fieldQuery, b.fieldId);
    var p2 := (b: Booking) => b.fieldId == field.id;
    var q := (b: Booking) => b.date == slotDate && IsTimeOverlap(slot.start, slot.end, b.startTime, b.endTime);
    var p2q := (b: Booking) => p2(b) && q(b);
    var occ := (b: Booking) => b.fieldId == field.id && b.date == slotDate && IsHeld(b.status)
                             && IsTimeOverlap(slot.start, slot.end, b.startTime, b.endTime);
    var fetched := Filter(store, p1);
    assert fetched == FetchedBookings(store, date, next, crosses, fieldQuery);
    FindInFilter(fetched, p2, q, p2q);
    FindInFilter(store, p1, p2q, occ);
  }

  /**
   * Every entry's slots are the generated one-hour slots, same starts, ends
   * and order, each marked by its occupant: free with no booking when there
   * is none, otherwise the occupant's status and summary. The slot's date is
   * the next date exactly for next-day slots.
   */
  lemma GridSlotsFollowOccupants(query: Query, settings: Option<Settings>, fields: seq<Field>, store: seq<Booking>,
                                 nextDate: string -> Option<string>, date: string, next: string, i: nat, k: nat)
    requires query.date == Some(date) && date != "" && nextDate(date) == Some(next)
    requires i < |ShownFields(fields, query.field)|
    ensures GetAvailability(query, settings, fields, store, nextDate).Ok?
    ensures var r := GetAvailability(query, settings, fields, store, nextDate).value;
      var slots := TimeSlots(r.openingTime, r.closingTime, 60);
      var field := ShownFields(fields, query.field)[i];
      && |r.availability| == |ShownFields(fields, query.field)|
      && r.availability[i].field == Info(field)
      && |r.availability[i].slots| == |slots|
      && (k < |slots| ==>
            var slotDate := if IsNextDaySlot(slots[k].start, r.openingTime, r.closingTime) then next else date;
            r.availability[i].slots[k] == ViewOf(slots[k], Occupant(store, field.id, slotDate, slots[k]), slotDate))
  {
    var r := GetAvailability(query, settings, fields, store, nextDate).value;
    var shown := ShownFields(fields, query.field);
    var field := shown[i];
    ShownFieldsAreActiveSelectedAndOrdered(fields, query.field);
    assert field in shown;
    var slots := TimeSlots(r.openingTime, r.closingTime, 60);
    if k < |slots| {
      var crosses := IsPastMidnight(r.openingTime, r.closingTime);
      var slotDate := SlotDate(slots[k], r.openingTime, r.closingTime, date, next);
      FieldSlotIsOccupant(store, field, query.field, slots[k], date, next, crosses, slotDate);
    }
  }

  /** A slot is "free" exactly when nothing occupies it, and it is never shown as cancelled. */
  lemma FreeIffUnoccupied(slot: TimeSlot, occupant: Option<Booking>, slotDate: string)
    requires occupant.Some? ==> IsHeld(occupant.value.status)
    ensures ViewOf(slot, occupant, slotDate).status == Free <==> occupant.None?
    ensures ViewOf(slot, occupant, slotDate).status != Cancelled
    ensures ViewOf(slot, occupant, slotDate).booking.None? <==> occupant.None?
  {
  }

  /** A schedule that crosses midnight generates no slots, so every field's list is empty. */
  lemma CrossingScheduleHasNoSlots(query: Query, settings: Option<Settings>, fields: seq<Field>, store: seq<Booking>,
                                   nextDate: string -> Option<string>)
    requires GetAvailability(query, settings, fields, store, nextDate).Ok?
    requires IsPastMidnight(OpeningTime(settings), ClosingTime(settings))
    ensures forall e | e in GetAvailability(query, settings, fields, store, nextDate).value.availability :: e.slots == []
  {
    var opening, closing := OpeningTime(settings), ClosingTime(settings);
    var open, close := ToMinutes(opening).value, ToMinutes(closing).value;
    TimeSlotsCount(opening, closing, 60, open, close);
  }
}
