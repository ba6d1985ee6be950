/**
 * The admin bookings page: the filter query it sends to the admin list, the
 * actions it offers on each booking, and the confirmation delete asks for.
 *
 * A status change the page offers is sent as is, with no conflict check on
 * the server; the lemmas show that the changes the page offers cannot create
 * an overlap, and neither can a delete.
 */
module AdminBookingsPage {
  import opened Wrappers
  import opened Domain
  import opened Listing

  /** What a button on a booking's row does. */
  datatype Action = SetStatus(status: string) | Delete

  /** The buttons of a row: confirm or reject a pending booking, cancel a confirmed one, delete any. */
  function OfferedActions(status: string): (actions: seq<Action>)
    ensures Delete in actions
    ensures forall s :: SetStatus(s) in actions <==>
      (status == Pending && (s == Confirmed || s == Cancelled)) || (status == Confirmed && s == Cancelled)
  {
    (if status == Pending then [SetStatus(Confirmed), SetStatus(Cancelled)] else [])
    + (if status == Confirmed then [SetStatus(Cancelled)] else [])
    + [Delete]
  }

  /** Cancelled and blocked bookings can only be deleted. */
  lemma SettledBookingsOnlyDelete(status: string)
    requires status == Cancelled || status == Blocked
    ensures OfferedActions(status) == [Delete]
  {
  }

  /** `handleDelete`: the id is sent only when the user confirms. */
  function DeleteRequest(confirmed: bool, id: string): (sent: Option<string>)
    ensures sent.Some? <==> confirmed
    ensures sent.Some? ==> sent.value == id
  {
    if confirmed then Some(id) else None
  }

  /** An offered status change never makes a booking held that was not, nor keeps one held under a new name. */
  lemma OfferedChangeHeld(status: string, next: string)
    requires SetStatus(next) in OfferedActions(status)
    ensures IsHeld(next) ==> IsHeld(status)
  {
  }

  /** Applying an offered status change to a stored booking keeps the store free of overlaps. */
  lemma OfferedChangeKeepsNoOverlap(store: seq<Booking>, i: nat, next: string)
    requires NoOverlap(store)
    requires i < |store|
    requires SetStatus(next) in OfferedActions(store[i].status)
    ensures NoOverlap(store[i := store[i].(status := next)])
  {
    var s := store[i := store[i].(status := next)];
    OfferedChangeHeld(store[i].status, next);
    forall j, k | 0 <= j < |s| && 0 <= k < |s| && j != k
      ensures !Clash(s[j], s[k])
    {
      assert !Clash(store[j], store[k]);
    }
  }

  /** Removing a booking keeps the store free of overlaps. */
  lemma DeleteKeepsNoOverlap(store: seq<Booking>, i: nat)
    requires NoOverlap(store)
    requires i < |store|
    ensures NoOverlap(store[..i] + store[i + 1..])
  {
    var s := store[..i] + store[i + 1..];
    forall j, k | 0 <= j < |s| && 0 <= k < |s| && j != k
      ensures !Clash(s[j], s[k])
    {
      var j' := if j < i then j else j + 1;
      var k' := if k < i then k else k + 1;
      assert s[j] == store[j'] && s[k] == store[k'];
    }
  }

  /** The value of the first parameter named `key`, as `URLSearchParams.get` reads it. */
  function Lookup(params: seq<(string, string)>, key: string): (v: Option<string>)
    ensures v.Some? <==> exists p | p in params :: p.0 == key
    ensures v.Some? ==> (key, v.value) in params
  {
    if params == [] then None
    else if params[0].0 == key then Some(params[0].1)
    else Lookup(params[1..], key)
  }

  /** `Lookup` answers with the value of the first parameter named `key`. */
  lemma {:induction false} LookupIsFirst(params: seq<(string, string)>, key: string, i: nat)
    requires i < |params| && params[i].0 == key
    requires forall j | 0 <= j < i :: params[j].0 != key
    ensures Lookup(params, key) == Some(params[i].1)
  {
    if i > 0 {
      LookupIsFirst(params[1..], key, i - 1);
    }
  }

  /** `fetchBookings`' query string: `date`, `status` and `field`, each only when its filter is non-empty. */
  method BuildQuery(dateFilter: string, statusFilter: string, fieldFilter: string) returns (params: seq<(string, string)>)
    ensures forall p | p in params :: p == ("date", dateFilter) || p == ("status", statusFilter) || p == ("field", fieldFilter)
    ensures ("date", dateFilter) in params <==> dateFilter != ""
    ensures ("status", statusFilter) in params <==> statusFilter != ""
    ensures ("field", fieldFilter) in params <==> fieldFilter != ""
  {
    params := [];
    if dateFilter != "" {
      params := params + [("date", dateFilter)];
    }
    if statusFilter != "" {
      params := params + [("status", statusFilter)];
    }
    if fieldFilter != "" {
      params := params + [("field", fieldFilter)];
    }
  }

  /** How the admin list reads the query string. */
  function ReadQuery(params: seq<(string, string)>): ListQuery
  {
    ListQuery(Lookup(params, "date"), Lookup(params, "field"), Lookup(params, "status"))
  }

  /**
   * A query string built from the three filters makes the admin list match
   * a booking exactly when it agrees with every non-empty filter.
   */
  lemma QueryReadsBackFilters(params: seq<(string, string)>, dateFilter: string, statusFilter: string, fieldFilter: string, b: Booking)
    requires forall p | p in params :: p == ("date", dateFilter) || p == ("status", statusFilter) || p == ("field", fieldFilter)
    requires ("date", dateFilter) in params <==> dateFilter != ""
    requires ("status", statusFilter) in params <==> statusFilter != ""
    requires ("field", fieldFilter) in params <==> fieldFilter != ""
    ensures Matches(ReadQuery(params), b) <==>
      && (dateFilter != "" ==> b.date == dateFilter)
      && (statusFilter != "" ==> b.status == statusFilter)
      && (fieldFilter != "" ==> b.fieldId == fieldFilter)
  {
    var q := ReadQuery(params);
    assert Truthy(q.date) <==> dateFilter != "";
    assert Truthy(q.status) <==> statusFilter != "";
    assert Truthy(q.field) <==> fieldFilter != "";
  }
}
