/** The host's dashboard: a read-only roll-up of the host's listings and the bookings made
    on them. */
module DashboardController {
  import opened Models
  import Seqs

  datatype DashboardStats = DashboardStats(
    totalListings: nat,
    activeListings: nat,
    totalBookings: nat,
    totalEarnings: int,
    cancelledBookings: nat)

  /** `Listing.find({ host })`: each of the host's listings as often as it is stored, and
      nothing else. */
  function HostListings(ls: seq<Listing>, host: Id): (r: seq<Listing>)
    ensures forall l :: multiset(r)[l] == if l.host == host then multiset(ls)[l] else 0
    ensures forall l :: l in r <==> l in ls && l.host == host
    ensures |r| <= |ls|
  {
    var hosted := (l: Listing) => l.host == host;
    Seqs.FilterCounts(ls, hosted);
    Seqs.FilterMembers(ls, hosted);
    Seqs.Filter(ls, hosted)
  }

  /** The host's listings of a concatenation are those of each part, in store order. */
  lemma HostListingsKeepOrder(a: seq<Listing>, b: seq<Listing>, host: Id)
    ensures HostListings(a + b, host) == HostListings(a, host) + HostListings(b, host)
  {
    Seqs.FilterKeepsOrder(a, b, (l: Listing) => l.host == host);
  }

  function Ids(ls: seq<Listing>): (r: seq<Id>)
    ensures |r| == |ls|
    ensures forall i :: 0 <= i < |ls| ==> r[i] == ls[i].id
  {
    if |ls| == 0 then [] else [ls[0].id] + Ids(ls[1..])
  }

  /** `Booking.find({ listingId: { $in: ids } })`: each booking on one of the listings as
      often as it is stored, and nothing else. */
  function BookingsOn(bs: seq<Booking>, ids: seq<Id>): (r: seq<Booking>)
    ensures forall b :: multiset(r)[b] == if b.listingId in ids then multiset(bs)[b] else 0
    ensures forall b :: b in r <==> b in bs && b.listingId in ids
    ensures |r| <= |bs|
  {
    var on := (b: Booking) => b.listingId in ids;
    Seqs.FilterCounts(bs, on);
    Seqs.FilterMembers(bs, on);
    Seqs.Filter(bs, on)
  }

  /** The bookings on the listings, of a concatenation, are those of each part, in store
      order. */
  lemma BookingsOnKeepOrder(a: seq<Booking>, b: seq<Booking>, ids: seq<Id>)
    ensures BookingsOn(a + b, ids) == BookingsOn(a, ids) + BookingsOn(b, ids)
  {
    Seqs.FilterKeepsOrder(a, b, (x: Booking) => x.listingId in ids);
  }

  /** How many bookings have status `st`. */
  function CountStatus(bs: seq<Booking>, st: BookingStatus): nat {
    if |bs| == 0 then 0
    else CountStatus(bs[..|bs| - 1], st) + (if bs[|bs| - 1].status == st then 1 else 0)
  }

  /** The sum of `totalPrice` over the confirmed bookings. */
  function ConfirmedEarnings(bs: seq<Booking>): int {
    if |bs| == 0 then 0
    else ConfirmedEarnings(bs[..|bs| - 1]) + (if bs[|bs| - 1].status == Confirmed then bs[|bs| - 1].totalPrice else 0)
  }

  /** Every booking is pending, confirmed or cancelled, so the three counts add up. */
  lemma {:induction false} StatusCountsPartition(bs: seq<Booking>)
    ensures CountStatus(bs, Pending) + CountStatus(bs, Confirmed) + CountStatus(bs, Cancelled) == |bs|
  {
    if |bs| > 0 {
      StatusCountsPartition(bs[..|bs| - 1]);
    }
  }

  lemma {:induction false} EarningsNonNegative(bs: seq<Booking>)
    requires forall i :: 0 <= i < |bs| ==> bs[i].totalPrice >= 0
    ensures ConfirmedEarnings(bs) >= 0
  {
    if |bs| > 0 {
      EarningsNonNegative(bs[..|bs| - 1]);
    }
  }

  /** `getDashboardStats`. It returns no store: the roll-up writes nothing. */
  function GetDashboardStats(s: Store, host: Id): (r: DashboardStats)
    ensures var mine := HostListings(s.listings, host);
      var bookings := BookingsOn(s.bookings, Ids(mine));
      && r.totalListings == |mine| && r.activeListings == |mine|
      && r.totalBookings == |bookings|
      && r.totalEarnings == ConfirmedEarnings(bookings)
      && r.cancelledBookings == CountStatus(bookings, Cancelled)
    ensures r.totalListings == r.activeListings
    ensures r.totalListings <= |s.listings|
    ensures r.totalBookings <= |s.bookings|
    ensures r.cancelledBookings + CountStatus(BookingsOn(s.bookings, Ids(HostListings(s.listings, host))), Confirmed)
      <= r.totalBookings
    ensures (forall i :: 0 <= i < |s.bookings| ==> s.bookings[i].totalPrice >= 0) ==> r.totalEarnings >= 0
  {
    var mine := HostListings(s.listings, host);
    var bookings := BookingsOn(s.bookings, Ids(mine));
    StatusCountsPartition(bookings);
    assert (forall i :: 0 <= i < |s.bookings| ==> s.bookings[i].totalPrice >= 0) ==>
           ConfirmedEarnings(bookings) >= 0 by {
      if forall i :: 0 <= i < |s.bookings| ==> s.bookings[i].totalPrice >= 0 {
        forall i | 0 <= i < |bookings| ensures bookings[i].totalPrice >= 0 {
          assert bookings[i] in s.bookings;
        }
        EarningsNonNegative(bookings);
      }
    }
    DashboardStats(|mine|, |mine|, |bookings|, ConfirmedEarnings(bookings), CountStatus(bookings, Cancelled))
  }

  /** A booking on a listing the host does not own changes nothing on the host's dashboard. */
  lemma OtherListingsIgnored(s: Store, host: Id, b: Booking)
    requires forall i :: 0 <= i < |s.listings| && s.listings[i].id == b.listingId ==> s.listings[i].host != host
    ensures GetDashboardStats(s.(bookings := s.bookings + [b]), host) == GetDashboardStats(s, host)
  {
    var ids := Ids(HostListings(s.listings, host));
    assert b.listingId !in ids;
    assert (s.bookings + [b])[..|s.bookings|] == s.bookings;
  }
}
