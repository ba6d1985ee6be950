/**
 * The booking table the routes write to. Each create route reads the table,
 * decides, and on success appends exactly one record; on any error the table
 * is left as it was.
 */
module BookingStore {
  import opened Wrappers
  import opened Domain
  import opened Auth
  import opened PublicBookings
  import opened AdminRoutes

  class Store {
    /** The stored bookings in insertion order. */
    var bookings: seq<Booking>

    constructor (initial: seq<Booking>)
      ensures bookings == initial
    {
      bookings := initial;
    }

    /** Appends `r`'s booking when there is one. */
    method Commit(r: Result<Booking, ApiError>)
      modifies this
      ensures bookings == (if r.Ok? then old(bookings) + [r.value] else old(bookings))
    {
      if r.Ok? {
        bookings := bookings + [r.value];
      }
    }

    /** `POST /api/bookings`, validating the contact it stores. */
    method CreatePublic(body: CreateBody, fields: seq<Field>, settings: Option<Settings>,
                        now: int, instantOf: (string, string) -> Option<int>, id: string)
      returns (r: Result<Booking, ApiError>)
      modifies this
      ensures r == Create(body, fields, old(bookings), settings, now, instantOf, id)
      ensures bookings == (if r.Ok? then old(bookings) + [r.value] else old(bookings))
      ensures NoOverlap(old(bookings)) ==> NoOverlap(bookings)
    {
      r := Create(body, fields, bookings, settings, now, instantOf, id);
      if r.Ok? && NoOverlap(bookings) {
        CreateKeepsNoOverlap(body, fields, bookings, settings, now, instantOf, id);
      }
      Commit(r);
    }

    /** `POST /api/bookings` as written: it validates `customerName` / `customerPhone` and stores `name` / `phone`. */
    method CreatePublicAsWritten(body: CreateBody, fields: seq<Field>, settings: Option<Settings>,
                                 now: int, instantOf: (string, string) -> Option<int>, id: string)
      returns (r: Result<Booking, ApiError>)
      modifies this
      ensures r == CreateAsWritten(body, fields, old(bookings), settings, now, instantOf, id)
      ensures bookings == (if r.Ok? then old(bookings) + [r.value] else old(bookings))
      ensures NoOverlap(old(bookings)) ==> NoOverlap(bookings)
    {
      r := CreateAsWritten(body, fields, bookings, settings, now, instantOf, id);
      if r.Ok? && NoOverlap(bookings) {
        CreateAsWrittenKeepsNoOverlap(body, fields, bookings, settings, now, instantOf, id);
      }
      Commit(r);
    }

    /** `POST /api/admin/blocked`. */
    method BlockPeriod(req: Request, verify: string -> Option<Claims>, body: BlockBody, id: string)
      returns (r: Result<Booking, ApiError>)
      modifies this
      ensures r == Block(req, verify, body, old(bookings), id)
      ensures bookings == (if r.Ok? then old(bookings) + [r.value] else old(bookings))
      ensures NoOverlap(old(bookings)) ==> NoOverlap(bookings)
    {
      r := Block(req, verify, body, bookings, id);
      if r.Ok? && NoOverlap(bookings) {
        BlockKeepsNoOverlap(req, verify, body, bookings, id);
      }
      Commit(r);
    }

    /** `POST /api/admin/bookings`: appends without consulting the table, so the no-overlap rule is not kept. */
    method CreateByAdmin(req: Request, verify: string -> Option<Claims>, body: AdminBody, id: string)
      returns (r: Result<Booking, ApiError>)
      modifies this
      ensures r == AdminCreate(req, verify, body, id)
      ensures bookings == (if r.Ok? then old(bookings) + [r.value] else old(bookings))
    {
      r := AdminCreate(req, verify, body, id);
      Commit(r);
    }
  }
}
