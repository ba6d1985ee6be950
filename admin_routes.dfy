/**
 * The admin endpoints: blocking a period, creating a booking directly, and
 * the admin list with its three counters. Every one of them answers the
 * admin gate's error before it looks at the request body or the store.
 *
 * Blocking runs the same conflict query as the public create; the direct
 * create runs none, so it is the one route that can put two overlapping held
 * bookings in the store.
 */
module AdminRoutes {
  import opened Wrappers
  import opened Seqs
  import opened TimeUtils
  import opened Domain
  import opened Auth
  import opened Listing

  // ---------------------------------------------------------------------------
  // Block

  /** The JSON body of a block request. */
  datatype BlockBody = BlockBody(
    fieldId: Option<string>,
    date: Option<string>,
    startTime: Option<string>,
    endTime: Option<string>,
    reason: Option<string>)

  predicate BlockComplete(body: BlockBody)
  {
    Truthy(body.fieldId) && Truthy(body.date) && Truthy(body.startTime) && Truthy(body.endTime)
  }

  /** The record a block writes: a held, unbilled booking under the synthetic customer "Admin". */
  function BlockRecord(body: BlockBody, id: string): (b: Booking)
    requires BlockComplete(body)
    ensures b.status == Blocked && IsHeld(b.status) && b.price == 0
    ensures b.customerName == Some("Admin") && b.customerPhone == Some("")
    ensures b.blockReason == Some(if Truthy(body.reason) then body.reason.value else "Yopiq")
    ensures b.fieldId == body.fieldId.value && b.date == body.date.value
    ensures b.startTime == body.startTime.value && b.endTime == body.endTime.value
  {
    Booking(id, body.fieldId.value, body.date.value, body.startTime.value, body.endTime.value, Blocked,
            Some("Admin"), Some(""), None, None, Some(OrElse(body.reason, "Yopiq")), 0, None, None)
  }

  /** `POST /api/admin/blocked`: gate, required fields, conflict query, then the blocked record. */
  function Block(req: Request, verify: string -> Option<Claims>, body: BlockBody, store: seq<Booking>, id: string)
    : (r: Result<Booking, ApiError>)
    ensures RequireAdmin(req, verify).Some? ==> r == Err(RequireAdmin(req, verify).value)
    ensures RequireAdmin(req, verify).None? && !BlockComplete(body) ==> r == Err(MissingFields)
    ensures r.Ok? ==>
      && RequireAdmin(req, verify).None? && BlockComplete(body)
      && !HasConflict(store, body.fieldId.value, body.date.value, body.startTime.value, body.endTime.value)
      && r.value == BlockRecord(body, id)
    ensures r == Err(SlotTaken) <==>
      (RequireAdmin(req, verify).None? && BlockComplete(body)
       && HasConflict(store, body.fieldId.value, body.date.value, body.startTime.value, body.endTime.value))
  {
    var gate := RequireAdmin(req, verify);
    if gate.Some? then Err(gate.value)
    else if !BlockComplete(body) then Err(MissingFields)
    else if HasConflict(store, body.fieldId.value, body.date.value, body.startTime.value, body.endTime.value)
    then Err(SlotTaken)
    else Ok(BlockRecord(body, id))
  }

  /** Adding what the block route returns keeps the store free of overlapping held bookings. */
  lemma BlockKeepsNoOverlap(req: Request, verify: string -> Option<Claims>, body: BlockBody, store: seq<Booking>, id: string)
    requires NoOverlap(store)
    requires Block(req, verify, body, store, id).Ok?
    ensures NoOverlap(store + [Block(req, verify, body, store, id).value])
  {
    AppendKeepsNoOverlap(store, Block(req, verify, body, store, id).value);
  }

  /** A stored booking that is cancelled, or on another field or date, never changes the block route's answer. */
  lemma BlockIgnoresUnrelated(req: Request, verify: string -> Option<Claims>, body: BlockBody, store: seq<Booking>,
                              other: Booking, id: string)
    requires BlockComplete(body)
    requires !IsHeld(other.status) || other.fieldId != body.fieldId.value || other.date != body.date.value
    ensures Block(req, verify, body, store + [other], id) == Block(req, verify, body, store, id)
  {
    UnrelatedBookingNeverConflicts(store, other, body.fieldId.value, body.date.value, body.startTime.value, body.endTime.value);
  }

  // ---------------------------------------------------------------------------
  // Direct create

  /** The JSON body of an admin create request; `price` is None where the key is absent. */
  datatype AdminBody = AdminBody(
    fieldId: Option<string>,
    date: Option<string>,
    startTime: Option<string>,
    endTime: Option<string>,
    customerName: Option<string>,
    customerPhone: Option<string>,
    teamName: Option<string>,
    note: Option<string>,
    status: Option<string>,
    price: Option<int>)

  predicate AdminComplete(body: AdminBody)
  {
    Truthy(body.fieldId) && Truthy(body.date) && Truthy(body.startTime) && Truthy(body.endTime)
  }

  /** The record a direct create writes: status "confirmed", texts "" and price 0 where the body leaves them out. */
  function AdminRecord(body: AdminBody, id: string): (b: Booking)
    requires AdminComplete(body)
    ensures b.status == (if Truthy(body.status) then body.status.value else Confirmed)
    ensures b.price == (if body.price.Some? then body.price.value else 0)
    ensures b.customerName == Some(if Truthy(body.customerName) then body.customerName.value else "")
    ensures b.customerPhone == Some(if Truthy(body.customerPhone) then body.customerPhone.value else "")
    ensures b.teamName == Some(if Truthy(body.teamName) then body.teamName.value else "")
    ensures b.note == Some(if Truthy(body.note) then body.note.value else "")
    ensures b.blockReason == None
    ensures b.fieldId == body.fieldId.value && b.date == body.date.value
    ensures b.startTime == body.startTime.value && b.endTime == body.endTime.value
  {
    Booking(id, body.fieldId.value, body.date.value, body.startTime.value, body.endTime.value,
            OrElse(body.status, Confirmed),
            Some(OrElse(body.customerName, "")), Some(OrElse(body.customerPhone, "")),
            Some(OrElse(body.teamName, "")), Some(OrElse(body.note, "")),
            None, if body.price.Some? then body.price.value else 0, None, None)
  }

  /** `POST /api/admin/bookings`: gate, required fields, then the record; the store is never consulted. */
  function AdminCreate(req: Request, verify: string -> Option<Claims>, body: AdminBody, id: string)
    : (r: Result<Booking, ApiError>)
    ensures RequireAdmin(req, verify).Some? ==> r == Err(RequireAdmin(req, verify).value)
    ensures RequireAdmin(req, verify).None? ==>
      r == (if AdminComplete(body) then Ok(AdminRecord(body, id)) else Err(MissingFields))
  {
    var gate := RequireAdmin(req, verify);
    if gate.Some? then Err(gate.value)
    else if !AdminComplete(body) then Err(MissingFields)
    else Ok(AdminRecord(body, id))
  }

  /**
   * The direct create accepts a booking that overlaps a held one: a store
   * holding just `existing` has no overlap, and the store after the create
   * does. The new record is held whenever the body's status is left out.
   */
  lemma AdminCreateCanBreakNoOverlap(req: Request, verify: string -> Option<Claims>, existing: Booking,
                                     body: AdminBody, id: string)
    requires RequireAdmin(req, verify) == None
    requires AdminComplete(body) && (!Truthy(body.status) || IsHeld(body.status.value))
    requires IsHeld(existing.status)
    requires existing.fieldId == body.fieldId.value && existing.date == body.date.value
    requires IsTimeOverlap(body.startTime.value, body.endTime.value, existing.startTime, existing.endTime)
    ensures AdminCreate(req, verify, body, id).Ok?
    ensures NoOverlap([existing])
    ensures !NoOverlap([existing, AdminCreate(req, verify, body, id).value])
  {
    var s := [existing, AdminRecord(body, id)];
    assert Clash(s[1], s[0]);
  }

  // ---------------------------------------------------------------------------
  // Admin list and counters

  /** The dashboard counters. */
  datatype Stats = Stats(todayBookings: nat, pendingCount: nat, confirmedToday: nat)

  /** The list answer: the filtered bookings, latest date first, and the counters. */
  datatype AdminListing = AdminListing(bookings: seq<Booking>, stats: Stats)

  /** Bookings of `today` that are confirmed or pending. */
  function TodayBookings(store: seq<Booking>, today: string): (n: nat)
    ensures n <= |store|
    ensures (forall b :: b in store ==> b.date != today) ==> n == 0
  {
    Count(store, (b: Booking) => b.date == today && (b.status == Confirmed || b.status == Pending))
  }

  /** Pending bookings on any date. */
  function PendingCount(store: seq<Booking>): (n: nat)
    ensures n <= |store|
    ensures (forall b :: b in store ==> b.status != Pending) ==> n == 0
  {
    Count(store, (b: Booking) => b.status == Pending)
  }

  /** Confirmed bookings of `today`. */
  function ConfirmedToday(store: seq<Booking>, today: string): (n: nat)
    ensures n <= |store|
    ensures (forall b :: b in store ==> b.status != Confirmed) ==> n == 0
  {
    Count(store, (b: Booking) => b.date == today && b.status == Confirmed)
  }

  /**
   * `GET /api/admin/bookings`: the gate, then the filtered list by date
   * descending and start time ascending, with the counters for `today`.
   * The counters ignore the filters.
   */
  function AdminList(req: Request, verify: string -> Option<Claims>, store: seq<Booking>, q: ListQuery, today: string)
    : (r: Result<AdminListing, ApiError>)
    ensures RequireAdmin(req, verify).Some? ==> r == Err(RequireAdmin(req, verify).value)
    ensures RequireAdmin(req, verify).None? ==> r.Ok?
    ensures RequireAdmin(req, verify).None? ==>
      r.value.stats == Stats(TodayBookings(store, today), PendingCount(store), ConfirmedToday(store, today))
  {
    var gate := RequireAdmin(req, verify);
    if gate.Some? then Err(gate.value)
    else Ok(AdminListing(List(store, q, true),
                         Stats(TodayBookings(store, today), PendingCount(store), ConfirmedToday(store, today))))
  }

  /** The admin list holds exactly the matching stored bookings, latest date first and earliest start first within a date. */
  lemma AdminListIsMatchingAndOrdered(req: Request, verify: string -> Option<Claims>, store: seq<Booking>, q: ListQuery, today: string)
    requires RequireAdmin(req, verify).None?
    ensures var l := AdminList(req, verify, store, q, today).value.bookings;
      && (forall b :: b in l <==> b in store && Matches(q, b))
      && (forall b :: multiset(l)[b] == if Matches(q, b) then multiset(store)[b] else 0)
      && (forall i, j :: 0 <= i < j < |l| ==> DateThenStartLe(true, l[i], l[j]))
  {
    ListIsMatchingAndOrdered(store, q, true);
  }

  /** Confirmed bookings of today are among today's bookings, and no counter exceeds the store. */
  lemma StatsBounds(req: Request, verify: string -> Option<Claims>, store: seq<Booking>, q: ListQuery, today: string)
    requires RequireAdmin(req, verify).None?
    ensures var s := AdminList(req, verify, store, q, today).value.stats;
      s.confirmedToday <= s.todayBookings <= |store| && s.pendingCount <= |store|
  {
    CountMonotone(store, (b: Booking) => b.date == today && b.status == Confirmed,
                  (b: Booking) => b.date == today && (b.status == Confirmed || b.status == Pending));
  }

  /** The counters do not depend on the list's filters. */
  lemma StatsIgnoreQuery(req: Request, verify: string -> Option<Claims>, store: seq<Booking>, q1: ListQuery, q2: ListQuery,
                         today: string)
    requires RequireAdmin(req, verify).None?
    ensures AdminList(req, verify, store, q1, today).value.stats == AdminList(req, verify, store, q2, today).value.stats
  {
  }

  /**
   * Each counter is the number of stored bookings it describes: today's
   * confirmed or pending ones, all pending ones, and today's confirmed ones.
   */
  lemma StatsCountStoredBookings(req: Request, verify: string -> Option<Claims>, store: seq<Booking>, q: ListQuery,
                                 today: string)
    requires RequireAdmin(req, verify).None?
    ensures var s := AdminList(req, verify, store, q, today).value.stats;
      && s.todayBookings == |Filter(store, (b: Booking) => b.date == today && (b.status == Confirmed || b.status == Pending))|
      && s.pendingCount == |Filter(store, (b: Booking) => b.status == Pending)|
      && s.confirmedToday == |Filter(store, (b: Booking) => b.date == today && b.status == Confirmed)|
  {
    CountIsFilterLength(store, (b: Booking) => b.date == today && (b.status == Confirmed || b.status == Pending));
    CountIsFilterLength(store, (b: Booking) => b.status == Pending);
    CountIsFilterLength(store, (b: Booking) => b.date == today && b.status == Confirmed);
  }
}
