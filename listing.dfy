/**
 * The booking list queries: equality filters that apply only when given, and
 * the two orders the routes ask the store for, by date (ascending for the
 * public list, descending for the admin list) and then by start time.
 * Text columns compare in code-unit order.
 */
module Listing {
  import opened Wrappers
  import opened Text
  import opened Seqs
  import opened Sorting
  import opened Domain

  /** The optional `date`, `field` and `status` parameters; an empty one is ignored. */
  datatype ListQuery = ListQuery(date: Option<string>, field: Option<string>, status: Option<string>)

  /** The `where` clause: each given parameter must match its column. */
  predicate Matches(q: ListQuery, b: Booking)
  {
    && (Truthy(q.date) ==> b.date == q.date.value)
    && (Truthy(q.field) ==> b.fieldId == q.field.value)
    && (Truthy(q.status) ==> b.status == q.status.value)
  }

  /** `orderBy: [{ date: asc|desc }, { startTime: "asc" }]`: `a` may come before `b`. */
  predicate DateThenStartLe(dateDescending: bool, a: Booking, b: Booking)
  {
    if a.date != b.date then (if dateDescending then LexLe(b.date, a.date) else LexLe(a.date, b.date))
    else LexLe(a.startTime, b.startTime)
  }

  /** Both orders can rank any list of bookings. */
  lemma DateThenStartIsTotalPreorder(dateDescending: bool)
    ensures TotalPreorder((a: Booking, b: Booking) => DateThenStartLe(dateDescending, a, b))
  {
    var le := (a: Booking, b: Booking) => DateThenStartLe(dateDescending, a, b);
    forall a: Booking, b: Booking
      ensures le(a, b) || le(b, a)
    {
      LexLeTotal(a.date, b.date);
      LexLeTotal(a.startTime, b.startTime);
    }
    forall a: Booking, b: Booking, c: Booking | le(a, b) && le(b, c)
      ensures le(a, c)
    {
      if a.date == b.date && b.date == c.date {
        LexLeTransitive(a.startTime, b.startTime, c.startTime);
      } else if a.date == c.date {
        // b's date would sort strictly on both sides of the date a and c share.
        LexLeAntisymmetric(a.date, b.date);
      } else if a.date != b.date && b.date != c.date {
        if dateDescending {
          LexLeTransitive(c.date, b.date, a.date);
        } else {
          LexLeTransitive(a.date, b.date, c.date);
        }
      }
    }
  }

  /** The list a query returns: the matching bookings, in the requested order. */
  function List(store: seq<Booking>, q: ListQuery, dateDescending: bool): (r: seq<Booking>)
    ensures |r| <= |store|
    ensures forall b :: b in r ==> b in store && Matches(q, b)
  {
    var matching := Filter(store, (b: Booking) => Matches(q, b));
    var le := (a: Booking, b: Booking) => DateThenStartLe(dateDescending, a, b);
    SortByKeepsMembers(matching, le);
    SortBy(matching, le)
  }

  /**
   * A booking is listed exactly when it is stored and matches every given
   * parameter, as many times as it is stored, and the list is in order.
   */
  lemma ListIsMatchingAndOrdered(store: seq<Booking>, q: ListQuery, dateDescending: bool)
    ensures forall b :: b in List(store, q, dateDescending) <==> b in store && Matches(q, b)
    ensures multiset(List(store, q, dateDescending)) <= multiset(store)
    ensures forall b :: multiset(List(store, q, dateDescending))[b] == if Matches(q, b) then multiset(store)[b] else 0
    ensures SortedBy(List(store, q, dateDescending), (a: Booking, b: Booking) => DateThenStartLe(dateDescending, a, b))
  {
    var le := (a: Booking, b: Booking) => DateThenStartLe(dateDescending, a, b);
    var matching := Filter(store, (b: Booking) => Matches(q, b));
    DateThenStartIsTotalPreorder(dateDescending);
    SortBySorted(matching, le);
    forall b
      ensures b in List(store, q, dateDescending) <==> b in matching
    {
      SortByMembers(matching, le, b);
    }
    forall b
      ensures multiset(List(store, q, dateDescending))[b] == if Matches(q, b) then multiset(store)[b] else 0
    {
      FilterMultiplicity(store, (b: Booking) => Matches(q, b), b);
    }
  }
}
