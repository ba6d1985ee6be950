/**
 * The public bookings endpoint: the filtered, ordered list, and the create
 * route's chain of checks (required fields, phone, field, lead time, horizon,
 * conflict, price) that ends in a pending booking.
 *
 * The route validates `customerName` / `customerPhone` but stores `name` /
 * `phone`, while the booking form sends only `name` and `phone`. Both versions
 * are modelled over one shared decision: `CreateAsWritten` validates the
 * fields the route checks, `Create` validates the fields it stores, and the
 * store uses `Create`.
 *
 * The clock is the parameter `now` (milliseconds since the epoch), and the
 * Date parse of `${date}T${startTime}:00+05:00` is the parameter `instantOf`,
 * None where it is an Invalid Date.
 */
module PublicBookings {
  import opened Wrappers
  import opened Text
  import opened Seqs
  import opened TimeUtils
  import opened Domain
  import opened Listing

  /** The JSON body of a create request; None where a key is absent. */
  datatype CreateBody = CreateBody(
    fieldId: Option<string>,
    date: Option<string>,
    startTime: Option<string>,
    endTime: Option<string>,
    customerName: Option<string>,
    customerPhone: Option<string>,
    name: Option<string>,
    phone: Option<string>,
    teamName: Option<string>,
    note: Option<string>,
    telegramUserId: Option<string>,
    telegramUsername: Option<string>)

  /** A booking must start at least 30 minutes from now. */
  const LeadMs: int := 30 * 60 * 1000
  /** A booking may start at most 30 days from now. */
  const HorizonMs: int := 30 * 24 * 60 * 60 * 1000

  /** `GET /api/bookings`: the matching bookings by date, then start time, both ascending. */
  function ListBookings(store: seq<Booking>, q: ListQuery): (r: seq<Booking>)
    ensures |r| <= |store|
    ensures forall b :: b in r ==> Matches(q, b)
  {
    List(store, q, false)
  }

  /** The public list holds exactly the stored bookings that match the query, earliest date first. */
  lemma ListBookingsIsMatchingAndOrdered(store: seq<Booking>, q: ListQuery)
    ensures forall b :: b in ListBookings(store, q) <==> b in store && Matches(q, b)
    ensures forall b :: multiset(ListBookings(store, q))[b] == if Matches(q, b) then multiset(store)[b] else 0
    ensures forall i, j :: 0 <= i < j < |ListBookings(store, q)| ==>
      DateThenStartLe(false, ListBookings(store, q)[i], ListBookings(store, q)[j])
  {
    ListIsMatchingAndOrdered(store, q, false);
  }

  // ---------------------------------------------------------------------------
  // Price

  /** `parseInt(t.split(":")[i])`; None for NaN, including a missing part. */
  function ParsedPart(t: string, i: nat): Option<nat>
  {
    var parts := Split(t, ':');
    if i < |parts| then ParseIntValue(parts[i]) else None
  }

  /** End minus start in minutes, each read with `parseInt`; None when any part is NaN. */
  function DurationMinutes(start: string, end: string): (d: Option<int>)
    ensures d.Some? <==> ParsedPart(start, 0).Some? && ParsedPart(start, 1).Some? && ParsedPart(end, 0).Some? && ParsedPart(end, 1).Some?
    ensures d.Some? && start == end ==> d.value == 0
    ensures d.Some? && ParsedPart(start, 0) == ParsedPart(end, 0) ==>
      d.value == ParsedPart(end, 1).value - ParsedPart(start, 1).value
  {
    var sh, sm := ParsedPart(start, 0), ParsedPart(start, 1);
    var eh, em := ParsedPart(end, 0), ParsedPart(end, 1);
    if sh.Some? && sm.Some? && eh.Some? && em.Some?
    then Some((eh.value * 60 + em.value) - (sh.value * 60 + sm.value))
    else None
  }

  /** A start hour of 18 or later is charged the evening rate; a NaN hour is not. */
  function IsEvening(start: string): (r: bool)
    ensures ParsedPart(start, 0).None? ==> !r
    ensures r ==> ParsedPart(start, 0).value >= 18
  {
    var h := ParsedPart(start, 0);
    h.Some? && h.value >= 18
  }

  /** The hourly rate: the settings' evening or day price, 300000 or 200000 where that is missing or zero. */
  function Rate(start: string, settings: Option<Settings>): (rate: int)
    ensures settings.None? ==> rate == (if IsEvening(start) then 300000 else 200000)
    ensures settings.Some? && IsEvening(start) && settings.value.priceEvening != 0 ==> rate == settings.value.priceEvening
    ensures settings.Some? && !IsEvening(start) && settings.value.pricePerHour != 0 ==> rate == settings.value.pricePerHour
    ensures settings.Some? && IsEvening(start) && settings.value.priceEvening == 0 ==> rate == 300000
    ensures settings.Some? && !IsEvening(start) && settings.value.pricePerHour == 0 ==> rate == 200000
  {
    if IsEvening(start) then
      OrElseNumber(if settings.Some? then settings.value.priceEvening else 0, 300000)
    else
      OrElseNumber(if settings.Some? then settings.value.pricePerHour else 0, 200000)
  }

  /** `Math.round(rate * (minutes / 60))`: the integer nearest to rate times hours, halves rounded up. */
  function RoundedPrice(rate: int, minutes: int): (p: int)
    ensures 60 * p - 30 <= rate * minutes < 60 * p + 30
  {
    (2 * rate * minutes + 60) / 120
  }

  /** A whole number of hours is charged exactly. */
  lemma WholeHoursExact(rate: int, hours: int)
    ensures RoundedPrice(rate, 60 * hours) == rate * hours
  {
    var p := RoundedPrice(rate, 60 * hours);
    assert rate * (60 * hours) == 60 * (rate * hours);
    assert 60 * p - 30 <= 60 * (rate * hours) < 60 * p + 30;
  }

  /** The price the route stores; None where a time part is NaN, which the store then refuses. */
  function ServerPrice(start: string, end: string, settings: Option<Settings>): (p: Option<int>)
    ensures p.Some? <==> DurationMinutes(start, end).Some?
    ensures p.Some? ==>
      var exact := Rate(start, settings) * DurationMinutes(start, end).value;
      60 * p.value - 30 <= exact < 60 * p.value + 30
  {
    var d := DurationMinutes(start, end);
    if d.Some? then Some(RoundedPrice(Rate(start, settings), d.value)) else None
  }

  /** Two runs of digits joined by a colon read back part by part. */
  lemma ParsedPartsOfDigits(hours: string, minutes: string)
    requires hours != [] && AllDigits(hours)
    requires minutes != [] && AllDigits(minutes)
    ensures ParsedPart(hours + ":" + minutes, 0) == Some(DigitsValue(hours))
    ensures ParsedPart(hours + ":" + minutes, 1) == Some(DigitsValue(minutes))
  {
    assert ':' !in hours && ':' !in minutes;
    assert hours + ":" + minutes == hours + [':'] + minutes;
    SplitAtFirstSeparator(hours, ':', minutes);
    SplitWithoutSeparator(minutes, ':');
    ParseIntOfDigits(hours);
    ParseIntOfDigits(minutes);
  }

  /** A formatted time reads back as its hour and minute. */
  lemma ParsedPartsOfFormatTime(minutes: nat)
    ensures ParsedPart(FormatTime(minutes), 0) == Some(minutes / 60)
    ensures ParsedPart(FormatTime(minutes), 1) == Some(minutes % 60)
  {
    PaddedDigits(minutes / 60);
    PaddedDigits(minutes % 60);
    ParsedPartsOfDigits(PadStart2(ShowNat(minutes / 60)), PadStart2(ShowNat(minutes % 60)));
  }

  /** Between two formatted times the route reads the minutes between them, with no midnight wrap. */
  lemma DurationOfFormattedTimes(start: nat, end: nat)
    ensures DurationMinutes(FormatTime(start), FormatTime(end)) == Some(end - start)
  {
    ParsedPartsOfFormatTime(start);
    ParsedPartsOfFormatTime(end);
    assert (start / 60) * 60 + start % 60 == start;
    assert (end / 60) * 60 + end % 60 == end;
  }

  /** A formatted start is in the evening exactly from minute 1080 (18:00) on. */
  lemma EveningOfFormattedTime(start: nat)
    ensures IsEvening(FormatTime(start)) <==> start >= 18 * 60
  {
    ParsedPartsOfFormatTime(start);
  }

  /** Once the duration is read, the price is the rounded rate times it. */
  lemma PriceOfDuration(start: string, end: string, settings: Option<Settings>, minutes: int)
    requires DurationMinutes(start, end) == Some(minutes)
    ensures ServerPrice(start, end, settings) == Some(RoundedPrice(Rate(start, settings), minutes))
  {
  }

  /** The two-digit texts "14", "16", "18", "19" and "00" as `parseInt` reads them. */
  lemma SeedDigits()
    ensures AllDigits("14") && DigitsValue("14") == 14
    ensures AllDigits("16") && DigitsValue("16") == 16
    ensures AllDigits("18") && DigitsValue("18") == 18
    ensures AllDigits("19") && DigitsValue("19") == 19
    ensures AllDigits("00") && DigitsValue("00") == 0
  {
    assert DigitsValue("14") == 14 by { assert "14"[..1] == "1"; }
    assert DigitsValue("16") == 16 by { assert "16"[..1] == "1"; }
    assert DigitsValue("18") == 18 by { assert "18"[..1] == "1"; }
    assert DigitsValue("19") == 19 by { assert "19"[..1] == "1"; }
    assert DigitsValue("00") == 0 by { assert "00"[..1] == "0"; }
  }

  /**
   * The sample bookings' prices under the default rates: two daytime hours
   * from 14:00 cost 400000, one evening hour from 18:00 costs 300000.
   */
  lemma SamplePrices(settings: Settings)
    requires settings.pricePerHour == 200000 && settings.priceEvening == 300000
    ensures ServerPrice("14:00", "16:00", Some(settings)) == Some(400000)
    ensures ServerPrice("18:00", "19:00", Some(settings)) == Some(300000)
  {
    SeedDigits();
    assert "14:00" == "14" + ":" + "00";
    assert "16:00" == "16" + ":" + "00";
    assert "18:00" == "18" + ":" + "00";
    assert "19:00" == "19" + ":" + "00";
    ParsedPartsOfDigits("14", "00");
    ParsedPartsOfDigits("16", "00");
    ParsedPartsOfDigits("18", "00");
    ParsedPartsOfDigits("19", "00");
    WholeHoursExact(200000, 2);
    WholeHoursExact(300000, 1);
  }

  // ---------------------------------------------------------------------------
  // Create

  /** The stored booking a successful create writes. */
  function NewBooking(body: CreateBody, storedName: Option<string>, storedPhone: Option<string>,
                      price: int, id: string): Booking
    requires body.fieldId.Some? && body.date.Some? && body.startTime.Some? && body.endTime.Some?
  {
    Booking(id, body.fieldId.value, body.date.value, body.startTime.value, body.endTime.value, Pending,
            storedName, storedPhone, Some(OrElse(body.teamName, "")), Some(OrElse(body.note, "")), None, price,
            if Truthy(body.telegramUserId) then body.telegramUserId else None, body.telegramUsername)
  }

  /** Every field the route insists on is present and non-empty. */
  predicate RequiredPresent(body: CreateBody, name: Option<string>, phone: Option<string>)
  {
    Truthy(body.fieldId) && Truthy(body.date) && Truthy(body.startTime) && Truthy(body.endTime)
    && Truthy(name) && Truthy(phone)
  }

  /** The field exists and is active. */
  predicate FieldOpen(fields: seq<Field>, fieldId: string)
  {
    var f := Find(fields, (f: Field) => f.id == fieldId);
    f.Some? && f.value.active
  }

  /** The start is less than 30 minutes away; an Invalid Date is never too soon. */
  predicate StartsTooSoon(now: int, instant: Option<int>)
  {
    instant.Some? && instant.value - now < LeadMs
  }

  /** The start is more than 30 days away; an Invalid Date is never too far. */
  predicate StartsTooLate(now: int, instant: Option<int>)
  {
    instant.Some? && instant.value > now + HorizonMs
  }

  /**
   * The create route once the body is read: `name` / `phone` are the texts it
   * validates and `storedName` / `storedPhone` the texts it stores. The checks
   * run in order and the first that fails answers.
   */
  function Decide(body: CreateBody, name: Option<string>, phone: Option<string>,
                  storedName: Option<string>, storedPhone: Option<string>,
                  fields: seq<Field>, store: seq<Booking>, settings: Option<Settings>,
                  now: int, instantOf: (string, string) -> Option<int>, id: string): (r: Result<Booking, ApiError>)
    ensures !RequiredPresent(body, name, phone) ==> r == Err(MissingFields)
    ensures RequiredPresent(body, name, phone) && !IsValidPhone(phone.value) ==> r == Err(InvalidPhone)
    ensures r.Ok? ==>
      && RequiredPresent(body, name, phone)
      && IsValidPhone(phone.value)
      && FieldOpen(fields, body.fieldId.value)
      && !StartsTooSoon(now, instantOf(body.date.value, body.startTime.value))
      && !StartsTooLate(now, instantOf(body.date.value, body.startTime.value))
      && !HasConflict(store, body.fieldId.value, body.date.value, body.startTime.value, body.endTime.value)
      && ServerPrice(body.startTime.value, body.endTime.value, settings).Some?
      && r.value == NewBooking(body, storedName, storedPhone,
                               ServerPrice(body.startTime.value, body.endTime.value, settings).value, id)
  {
    if !RequiredPresent(body, name, phone) then Err(MissingFields)
    else if !IsValidPhone(phone.value) then Err(InvalidPhone)
    else
      var fieldId, date, start, end := body.fieldId.value, body.date.value, body.startTime.value, body.endTime.value;
      var instant := instantOf(date, start);
      if !FieldOpen(fields, fieldId) then Err(FieldNotFound)
      else if StartsTooSoon(now, instant) then Err(TooSoon)
      else if StartsTooLate(now, instant) then Err(TooFarAhead)
      else if HasConflict(store, fieldId, date, start, end) then Err(SlotTaken)
      else
        var price := ServerPrice(start, end, settings);
        if price.None? then Err(ServerError)
        else Ok(NewBooking(body, storedName, storedPhone, price.value, id))
  }

  /** `POST /api/bookings` as written: validates `customerName` / `customerPhone`, stores `name` / `phone`. */
  function CreateAsWritten(body: CreateBody, fields: seq<Field>, store: seq<Booking>, settings: Option<Settings>,
                           now: int, instantOf: (string, string) -> Option<int>, id: string): (r: Result<Booking, ApiError>)
    ensures !Truthy(body.customerName) || !Truthy(body.customerPhone) ==> r == Err(MissingFields)
    ensures r.Ok? ==>
      && IsValidPhone(body.customerPhone.value)
      && r.value.status == Pending && r.value.id == id
      && r.value.customerName == body.name && r.value.customerPhone == body.phone
      && !HasConflict(store, r.value.fieldId, r.value.date, r.value.startTime, r.value.endTime)
  {
    Decide(body, body.customerName, body.customerPhone, body.name, body.phone, fields, store, settings, now, instantOf, id)
  }

  /** `POST /api/bookings` validating the `name` / `phone` it stores and the booking form sends. */
  function Create(body: CreateBody, fields: seq<Field>, store: seq<Booking>, settings: Option<Settings>,
                  now: int, instantOf: (string, string) -> Option<int>, id: string): (r: Result<Booking, ApiError>)
    ensures !Truthy(body.name) || !Truthy(body.phone) ==> r == Err(MissingFields)
    ensures r.Ok? ==>
      && IsValidPhone(body.phone.value)
      && r.value.status == Pending && r.value.id == id
      && r.value.customerName == body.name && r.value.customerPhone == body.phone
      && !HasConflict(store, r.value.fieldId, r.value.date, r.value.startTime, r.value.endTime)
  {
    Decide(body, body.name, body.phone, body.name, body.phone, fields, store, settings, now, instantOf, id)
  }

  /** The error a request gets names the first check it fails. */
  lemma CreateErrors(body: CreateBody, fields: seq<Field>, store: seq<Booking>, settings: Option<Settings>,
                     now: int, instantOf: (string, string) -> Option<int>, id: string)
    requires RequiredPresent(body, body.name, body.phone) && IsValidPhone(body.phone.value)
    ensures var r := Create(body, fields, store, settings, now, instantOf, id);
      && (r == Err(FieldNotFound) <==> !FieldOpen(fields, body.fieldId.value))
      && (r == Err(TooSoon) <==>
            (FieldOpen(fields, body.fieldId.value) && StartsTooSoon(now, instantOf(body.date.value, body.startTime.value))))
      && (r == Err(TooFarAhead) <==>
            (&& FieldOpen(fields, body.fieldId.value)
             && !StartsTooSoon(now, instantOf(body.date.value, body.startTime.value))
             && StartsTooLate(now, instantOf(body.date.value, body.startTime.value))))
      && (r == Err(SlotTaken) <==>
            (&& FieldOpen(fields, body.fieldId.value)
             && !StartsTooSoon(now, instantOf(body.date.value, body.startTime.value))
             && !StartsTooLate(now, instantOf(body.date.value, body.startTime.value))
             && HasConflict(store, body.fieldId.value, body.date.value, body.startTime.value, body.endTime.value)))
      && (r == Err(ServerError) <==>
            (&& FieldOpen(fields, body.fieldId.value)
             && !StartsTooSoon(now, instantOf(body.date.value, body.startTime.value))
             && !StartsTooLate(now, instantOf(body.date.value, body.startTime.value))
             && !HasConflict(store, body.fieldId.value, body.date.value, body.startTime.value, body.endTime.value)
             && ServerPrice(body.startTime.value, body.endTime.value, settings).None?))
  {
  }

  /** Every check passing is enough: such a request is booked, pending, at the server's price, with the form's contact. */
  lemma CreateSucceeds(body: CreateBody, fields: seq<Field>, store: seq<Booking>, settings: Option<Settings>,
                       now: int, instantOf: (string, string) -> Option<int>, id: string)
    requires RequiredPresent(body, body.name, body.phone) && IsValidPhone(body.phone.value)
    requires FieldOpen(fields, body.fieldId.value)
    requires !StartsTooSoon(now, instantOf(body.date.value, body.startTime.value))
    requires !StartsTooLate(now, instantOf(body.date.value, body.startTime.value))
    requires !HasConflict(store, body.fieldId.value, body.date.value, body.startTime.value, body.endTime.value)
    requires ServerPrice(body.startTime.value, body.endTime.value, settings).Some?
    ensures var r := Create(body, fields, store, settings, now, instantOf, id);
      && r.Ok? && r.value.status == Pending
      && r.value.customerName == body.name && r.value.customerPhone == body.phone
      && r.value.price == ServerPrice(body.startTime.value, body.endTime.value, settings).value
  {
  }

  /** A created booking starts between 30 minutes and 30 days from now whenever its start is a valid date. */
  lemma CreatedWithinWindow(body: CreateBody, fields: seq<Field>, store: seq<Booking>, settings: Option<Settings>,
                            now: int, instantOf: (string, string) -> Option<int>, id: string)
    requires Create(body, fields, store, settings, now, instantOf, id).Ok?
    requires instantOf(body.date.value, body.startTime.value).Some?
    ensures var t := instantOf(body.date.value, body.startTime.value).value;
      now + LeadMs <= t <= now + HorizonMs
  {
  }

  /** Adding what the create route returns keeps the store free of overlapping held bookings. */
  lemma CreateKeepsNoOverlap(body: CreateBody, fields: seq<Field>, store: seq<Booking>, settings: Option<Settings>,
                             now: int, instantOf: (string, string) -> Option<int>, id: string)
    requires NoOverlap(store)
    requires Create(body, fields, store, settings, now, instantOf, id).Ok?
    ensures NoOverlap(store + [Create(body, fields, store, settings, now, instantOf, id).value])
  {
    AppendKeepsNoOverlap(store, Create(body, fields, store, settings, now, instantOf, id).value);
  }

  /** The route as written keeps the store free of overlaps too: its conflict check is the same. */
  lemma CreateAsWrittenKeepsNoOverlap(body: CreateBody, fields: seq<Field>, store: seq<Booking>, settings: Option<Settings>,
                                      now: int, instantOf: (string, string) -> Option<int>, id: string)
    requires NoOverlap(store)
    requires CreateAsWritten(body, fields, store, settings, now, instantOf, id).Ok?
    ensures NoOverlap(store + [CreateAsWritten(body, fields, store, settings, now, instantOf, id).value])
  {
    AppendKeepsNoOverlap(store, CreateAsWritten(body, fields, store, settings, now, instantOf, id).value);
  }

  /** A stored booking that is cancelled, or on another field or date, never changes the create route's answer. */
  lemma CreateIgnoresUnrelated(body: CreateBody, fields: seq<Field>, store: seq<Booking>, settings: Option<Settings>,
                               now: int, instantOf: (string, string) -> Option<int>, id: string, other: Booking)
    requires RequiredPresent(body, body.name, body.phone)
    requires !IsHeld(other.status) || other.fieldId != body.fieldId.value || other.date != body.date.value
    ensures Create(body, fields, store + [other], settings, now, instantOf, id)
      == Create(body, fields, store, settings, now, instantOf, id)
  {
    UnrelatedBookingNeverConflicts(store, other, body.fieldId.value, body.date.value, body.startTime.value, body.endTime.value);
  }

  /** What the booking form posts: `name` and `phone`, and never `customerName` or `customerPhone`. */
  predicate FormShaped(body: CreateBody)
  {
    body.customerName.None? && body.customerPhone.None?
  }

  /** As written, every request the booking form sends is refused as missing required fields. */
  lemma FormRejectedAsWritten(body: CreateBody, fields: seq<Field>, store: seq<Booking>, settings: Option<Settings>,
                              now: int, instantOf: (string, string) -> Option<int>, id: string)
    requires FormShaped(body)
    ensures CreateAsWritten(body, fields, store, settings, now, instantOf, id) == Err(MissingFields)
  {
  }

  /**
   * As written, a request that does pass validation, carrying only
   * `customerName` / `customerPhone`, hands the database a record with no contact.
   */
  lemma AcceptedAsWrittenWithoutContact(body: CreateBody, fields: seq<Field>, store: seq<Booking>, settings: Option<Settings>,
                                        now: int, instantOf: (string, string) -> Option<int>, id: string)
    requires body.name.None? && body.phone.None?
    requires CreateAsWritten(body, fields, store, settings, now, instantOf, id).Ok?
    ensures CreateAsWritten(body, fields, store, settings, now, instantOf, id).value.customerName.None?
    ensures CreateAsWritten(body, fields, store, settings, now, instantOf, id).value.customerPhone.None?
    ensures Create(body, fields, store, settings, now, instantOf, id) == Err(MissingFields)
  {
  }

  /** The corrected route answers the form exactly as the as-written one answers the same data under the validated keys. */
  lemma FormAcceptedWhenCorrected(body: CreateBody, fields: seq<Field>, store: seq<Booking>, settings: Option<Settings>,
                                  now: int, instantOf: (string, string) -> Option<int>, id: string)
    requires FormShaped(body)
    ensures Create(body, fields, store, settings, now, instantOf, id)
      == CreateAsWritten(body.(customerName := body.name, customerPhone := body.phone), fields, store, settings, now, instantOf, id)
  {
  }
}
