/**
 * The records the booking service stores and the rule the create and block
 * routes guard: no two held bookings of one field on one date overlap.
 *
 * A booking is "held" while its status is pending, confirmed or blocked; a
 * cancelled booking no longer occupies its time. Statuses stay text because
 * the admin create route stores whatever status the caller sends.
 */
module Domain {
  import opened Wrappers
  import opened TimeUtils
  import opened Seqs

  const Pending: string := "pending"
  const Confirmed: string := "confirmed"
  const Cancelled: string := "cancelled"
  const Blocked: string := "blocked"
  const Free: string := "free"

  /** A football field as the database holds it. */
  datatype Field = Field(id: string, name: string, surface: string, description: string, order: int, active: bool)

  /** The settings singleton; a zero price or an empty text means "not set" to every reader. */
  datatype Settings = Settings(
    openingTime: string,
    closingTime: string,
    pricePerHour: int,
    priceEvening: int,
    slotDurations: string,
    currency: string)

  /** A reservation or a blocked period. Optional texts are None where the record leaves them undefined. */
  datatype Booking = Booking(
    id: string,
    fieldId: string,
    date: string,
    startTime: string,
    endTime: string,
    status: string,
    customerName: Option<string>,
    customerPhone: Option<string>,
    teamName: Option<string>,
    note: Option<string>,
    blockReason: Option<string>,
    price: int,
    telegramUserId: Option<string>,
    telegramUsername: Option<string>)

  /** The statuses every conflict query and the availability grid look at. */
  predicate IsHeld(status: string)
  {
    status == Pending || status == Confirmed || status == Blocked
  }

  /** JavaScript truthiness of an optional text: present and not empty. */
  predicate Truthy(v: Option<string>)
  {
    v.Some? && v.value != ""
  }

  /** `v || fallback` on an optional text. */
  function OrElse(v: Option<string>, fallback: string): string
  {
    if Truthy(v) then v.value else fallback
  }

  /** `n || fallback` on a number: zero counts as unset. */
  function OrElseNumber(n: int, fallback: int): int
  {
    if n != 0 then n else fallback
  }

  /**
   * The conflict test of the create and block routes: `b` is a held booking
   * of the same field and date whose times overlap [start, end).
   */
  function ConflictsWith(b: Booking, fieldId: string, date: string, start: string, end: string): (r: bool)
    ensures r ==> b.status != Cancelled
    ensures r ==> ToMinutes(start).Some? && ToMinutes(end).Some? && ToMinutes(b.startTime).Some? && ToMinutes(b.endTime).Some?
  {
    b.fieldId == fieldId && b.date == date && IsHeld(b.status)
    && IsTimeOverlap(start, end, b.startTime, b.endTime)
  }

  /** `existing.some(b => isTimeOverlap(...))` over the held bookings of the field and date. */
  function HasConflict(store: seq<Booking>, fieldId: string, date: string, start: string, end: string): (r: bool)
    ensures r <==> Find(store, (b: Booking) => ConflictsWith(b, fieldId, date, start, end)).Some?
  {
    exists b | b in store :: ConflictsWith(b, fieldId, date, start, end)
  }

  /** Two stored bookings collide: both held, same field and date, overlapping times. */
  predicate Clash(a: Booking, b: Booking)
  {
    IsHeld(a.status) && ConflictsWith(b, a.fieldId, a.date, a.startTime, a.endTime)
  }

  /** The store's invariant: no two held bookings of one field and date overlap. */
  ghost predicate NoOverlap(store: seq<Booking>)
  {
    forall i, j | 0 <= i < |store| && 0 <= j < |store| && i != j :: !Clash(store[i], store[j])
  }

  /** Clashing does not depend on which of the two bookings is named first. */
  lemma ClashSymmetric(a: Booking, b: Booking)
    ensures Clash(a, b) == Clash(b, a)
  {
    OverlapSymmetric(a.startTime, a.endTime, b.startTime, b.endTime);
  }

  /**
   * Appending a booking that is not held, or that the conflict query finds
   * nothing against, keeps the invariant.
   */
  lemma AppendKeepsNoOverlap(store: seq<Booking>, b: Booking)
    requires NoOverlap(store)
    requires IsHeld(b.status) ==> !HasConflict(store, b.fieldId, b.date, b.startTime, b.endTime)
    ensures NoOverlap(store + [b])
  {
    var s := store + [b];
    forall i, j | 0 <= i < |s| && 0 <= j < |s| && i != j
      ensures !Clash(s[i], s[j])
    {
      if j == |store| {
        assert s[i] in store;
        assert !ConflictsWith(s[i], b.fieldId, b.date, b.startTime, b.endTime) || !IsHeld(b.status);
      } else if i == |store| {
        assert s[j] in store;
        ClashSymmetric(s[i], s[j]);
      } else {
        assert s[i] == store[i] && s[j] == store[j];
      }
    }
  }

  /** A cancelled booking, or one on another field or date, never adds a conflict to the store. */
  lemma UnrelatedBookingNeverConflicts(store: seq<Booking>, b: Booking, fieldId: string, date: string, start: string, end: string)
    requires !IsHeld(b.status) || b.fieldId != fieldId || b.date != date
    ensures HasConflict(store + [b], fieldId, date, start, end) == HasConflict(store, fieldId, date, start, end)
  {
    if HasConflict(store + [b], fieldId, date, start, end) {
      var c :| c in store + [b] && ConflictsWith(c, fieldId, date, start, end);
      assert c != b;
      assert c in store;
    }
    if HasConflict(store, fieldId, date, start, end) {
      var c :| c in store && ConflictsWith(c, fieldId, date, start, end);
      assert c in store + [b];
    }
  }

  /** The error answers of the routes, with their HTTP status codes. */
  datatype ApiError =
    | MissingFields
    | InvalidPhone
    | FieldNotFound
    | TooSoon
    | TooFarAhead
    | SlotTaken
    | MissingDate
    | Unauthorized
    | Forbidden
    | ServerError
  {
    function Status(): int
    {
      match this
      case MissingFields => 400
      case InvalidPhone => 400
      case FieldNotFound => 404
      case TooSoon => 400
      case TooFarAhead => 400
      case SlotTaken => 409
      case MissingDate => 400
      case Unauthorized => 401
      case Forbidden => 403
      case ServerError => 500
    }
  }
}
