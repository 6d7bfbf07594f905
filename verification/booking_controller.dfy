/** The booking handlers: reading bookings, starting a checkout session, materialising a
    booking from the payment processor's completion event, cancelling with a refund, and
    the guest's soft delete. Every handler is a function of the store, the request and the
    outcomes of the external calls it makes. */
module BookingController {
  import opened Options
  import opened Http
  import opened Models
  import Seqs

  /** `1000 * 60 * 60 * 24` milliseconds. */
  const OneDay: int := 86_400_000

  /** `Math.ceil(d / k)` for a positive divisor: the least `q` with `q * k >= d`.
      It is zero or negative when `d` is, which the server never rules out. */
  function CeilDiv(d: int, k: int): (q: int)
    requires k > 0
    ensures q * k >= d
    ensures (q - 1) * k < d
  {
    var f := d / k;
    assert d == f * k + d % k;
    if d % k == 0 then f else f + 1
  }

  /** Nights charged for a stay: whole days from check-in to check-out, rounded up. */
  function Nights(checkIn: Millis, checkOut: Millis): int {
    CeilDiv(checkOut - checkIn, OneDay)
  }

  lemma NightsOfWholeDays(checkIn: Millis, n: int)
    ensures Nights(checkIn, checkIn + n * OneDay) == n
  {
    var q := Nights(checkIn, checkIn + n * OneDay);
    assert q * OneDay >= n * OneDay && (q - 1) * OneDay < n * OneDay;
  }

  /** A part day is charged as a whole night. */
  lemma PartDayChargedAsNight(checkIn: Millis, n: nat, extra: int)
    requires 0 < extra < OneDay
    ensures Nights(checkIn, checkIn + n * OneDay + extra) == n + 1
  {
    var q := Nights(checkIn, checkIn + n * OneDay + extra);
    assert q * OneDay >= n * OneDay + extra && (q - 1) * OneDay < n * OneDay + extra;
  }

  /** The amount charged for a stay at `price` a night. */
  function StayPrice(checkIn: Millis, checkOut: Millis, price: int): int {
    Nights(checkIn, checkOut) * price
  }

  /** The payment processor's unit amount is in paise: a hundred to the rupee. */
  function UnitAmount(totalPrice: int): int {
    totalPrice * 100
  }

  /** The identity under which both the session and the webhook look for an existing
      booking: guest, listing and the exact dates. */
  datatype BookingKey = BookingKey(userId: Id, listingId: Id, checkIn: Millis, checkOut: Millis)

  function KeyOf(b: Booking): BookingKey {
    BookingKey(b.userId, b.listingId, b.checkIn, b.checkOut)
  }

  /** `b` is a non-cancelled booking under key `k` (`status: { $ne: "cancelled" }`). */
  predicate HoldsKey(b: Booking, k: BookingKey) {
    KeyOf(b) == k && b.status != Cancelled
  }

  predicate HasActive(bs: seq<Booking>, k: BookingKey) {
    exists i | 0 <= i < |bs| :: HoldsKey(bs[i], k)
  }

  /** How many non-cancelled bookings hold key `k`. */
  function CountActive(bs: seq<Booking>, k: BookingKey): nat {
    if |bs| == 0 then 0
    else CountActive(bs[..|bs| - 1], k) + (if HoldsKey(bs[|bs| - 1], k) then 1 else 0)
  }

  lemma {:induction false} CountActivePositive(bs: seq<Booking>, k: BookingKey)
    ensures CountActive(bs, k) > 0 <==> HasActive(bs, k)
  {
    if |bs| > 0 {
      var init := bs[..|bs| - 1];
      CountActivePositive(init, k);
      if HasActive(init, k) {
        var i :| 0 <= i < |init| && HoldsKey(init[i], k);
        assert HoldsKey(bs[i], k);
      }
      if HasActive(bs, k) && !HoldsKey(bs[|bs| - 1], k) {
        var i :| 0 <= i < |bs| && HoldsKey(bs[i], k);
        assert HoldsKey(init[i], k);
      }
    }
  }

  // ---------------------------------------------------------------- reads

  /** `getBooking`: 404 when absent, 403 when the booking is another guest's. */
  function GetBooking(s: Store, id: Id, requester: Id): (r: Reply<Booking>)
    ensures FindBooking(s.bookings, id).None? ==> r == Reply(NotFound, None)
    ensures FindBooking(s.bookings, id).Some? && s.bookings[FindBooking(s.bookings, id).value].userId != requester
      ==> r == Reply(Forbidden, None)
    ensures r.status == Ok <==> r.data.Some?
    ensures r.data.Some? ==> r.data.value.id == id && r.data.value.userId == requester && r.data.value in s.bookings
  {
    var i := FindBooking(s.bookings, id);
    if i.None? then Reply(NotFound, None)
    else if s.bookings[i.value].userId != requester then Reply(Forbidden, None)
    else Reply(Ok, Some(s.bookings[i.value]))
  }

  /** `Booking.find({ userId })`, in store order: each of the guest's bookings as often as it
      is stored, and nothing else. */
  function BookingsOf(bs: seq<Booking>, userId: Id): (r: seq<Booking>)
    ensures forall b :: multiset(r)[b] == if b.userId == userId then multiset(bs)[b] else 0
    ensures forall b :: b in r <==> b in bs && b.userId == userId
    ensures |r| <= |bs|
  {
    var mine := (b: Booking) => b.userId == userId;
    Seqs.FilterCounts(bs, mine);
    Seqs.FilterMembers(bs, mine);
    Seqs.Filter(bs, mine)
  }

  /** The guest's bookings of a concatenation are those of each part, in order. */
  lemma BookingsOfKeepsOrder(a: seq<Booking>, b: seq<Booking>, userId: Id)
    ensures BookingsOf(a + b, userId) == BookingsOf(a, userId) + BookingsOf(b, userId)
  {
    Seqs.FilterKeepsOrder(a, b, (x: Booking) => x.userId == userId);
  }

  /** `getAllBookings`: exactly the requester's bookings, or 404 when there are none. */
  function GetAllBookings(s: Store, requester: Id): (r: Reply<seq<Booking>>)
    ensures r.status == NotFound <==> forall i :: 0 <= i < |s.bookings| ==> s.bookings[i].userId != requester
    ensures r.status == NotFound || r.status == Ok
    ensures r.status == Ok <==> r.data.Some?
    ensures r.status == Ok ==> |r.data.value| > 0
    ensures r.data.Some? ==>
      forall b :: multiset(r.data.value)[b] == if b.userId == requester then multiset(s.bookings)[b] else 0
  {
    var mine := BookingsOf(s.bookings, requester);
    if |mine| == 0 then
      assert forall i :: 0 <= i < |s.bookings| ==> s.bookings[i].userId != requester by {
        forall i | 0 <= i < |s.bookings| ensures s.bookings[i].userId != requester {
          assert s.bookings[i] in s.bookings;
        }
      }
      Reply(NotFound, None)
    else
      assert mine[0] in s.bookings;
      Reply(Ok, Some(mine))
  }

  /** With unique ids, every booking in the guest's list is one `getBooking` hands the same
      guest. */
  lemma AllBookingsAgreeWithGetBooking(s: Store, requester: Id, b: Booking)
    requires UniqueIds(s)
    requires GetAllBookings(s, requester).data.Some? && b in GetAllBookings(s, requester).data.value
    ensures GetBooking(s, b.id, requester) == Reply(Ok, Some(b))
  {
    assert b in s.bookings && b.userId == requester;
    var k :| 0 <= k < |s.bookings| && s.bookings[k] == b;
    var i := FindBooking(s.bookings, b.id);
    assert i.Some?;
  }

  // ---------------------------------------------------------------- checkout session

  /** The request body of `createCheckoutSession`; an absent phone makes
      `phone.toString()` throw. */
  datatype SessionRequest = SessionRequest(phone: Option<int>, checkIn: Millis, checkOut: Millis)

  /** The session's metadata: the only carrier of the booking intent until the payment
      processor reports completion. */
  datatype Metadata = Metadata(userId: Id, listingId: Id, phone: int, checkIn: Millis,
                               checkOut: Millis, totalPrice: int)

  datatype CheckoutSession = CheckoutSession(url: string, productName: string, unitAmount: int,
                                             metadata: Metadata)

  datatype SessionReply = SessionReply(status: Status, session: Option<CheckoutSession>)

  /** `createCheckoutSession`. `sessionUrl` is what the payment processor's session call
      returns (`None`: the call throws). The result carries no store: the handler writes
      nothing, and the booking intent travels only in the session's metadata. */
  function CreateCheckoutSession(s: Store, userId: Id, listingId: Id, req: SessionRequest,
                                 sessionUrl: Option<string>): (r: SessionReply)
    ensures r.status == NotFound <==> FindListing(s.listings, listingId).None?
    ensures r.status == BadRequest <==>
      FindListing(s.listings, listingId).Some? &&
      HasActive(s.bookings, BookingKey(userId, listingId, req.checkIn, req.checkOut))
    ensures r.status == Ok <==> r.session.Some?
    ensures r.status in {Ok, BadRequest, NotFound, ServerError}
    ensures r.status == ServerError ==> req.phone.None? || sessionUrl.None?
    ensures r.session.Some? ==>
      var l := s.listings[FindListing(s.listings, listingId).value];
      && req.phone.Some? && sessionUrl.Some?
      && r.session.value.url == sessionUrl.value
      && r.session.value.productName == l.title
      && r.session.value.metadata == Metadata(userId, listingId, req.phone.value, req.checkIn,
                                              req.checkOut, StayPrice(req.checkIn, req.checkOut, l.price))
      && r.session.value.unitAmount == UnitAmount(r.session.value.metadata.totalPrice)
  {
    var li := FindListing(s.listings, listingId);
    if li.None? then SessionReply(NotFound, None)
    else if HasActive(s.bookings, BookingKey(userId, listingId, req.checkIn, req.checkOut)) then
      SessionReply(BadRequest, None)
    else
      var l := s.listings[li.value];
      var total := StayPrice(req.checkIn, req.checkOut, l.price);
      if req.phone.None? || sessionUrl.None? then SessionReply(ServerError, None)
      else
        var meta := Metadata(userId, listingId, req.phone.value, req.checkIn, req.checkOut, total);
        SessionReply(Ok, Some(CheckoutSession(sessionUrl.value, l.title, UnitAmount(total), meta)))
  }

  // ---------------------------------------------------------------- webhook

  /** The checkout-session object of a completion event. */
  datatype SessionObject = SessionObject(id: string, paymentIntent: Option<string>, metadata: Metadata)

  datatype StripeEvent = StripeEvent(kind: string, session: SessionObject)

  const CheckoutCompleted: string := "checkout.session.completed"

  function MetadataKey(m: Metadata): BookingKey {
    BookingKey(m.userId, m.listingId, m.checkIn, m.checkOut)
  }

  /** The booking a completion event creates: fields from the metadata, the session id and
      payment intent from the event, status confirmed. */
  function BookingFromSession(id: Id, o: SessionObject): (b: Booking)
    ensures b.status == Confirmed && !b.isDeleted
    ensures KeyOf(b) == MetadataKey(o.metadata)
    ensures b.phone == o.metadata.phone && b.totalPrice == o.metadata.totalPrice
    ensures b.stripeSessionId == Some(o.id) && b.stripePaymentIntentId == o.paymentIntent
  {
    var m := o.metadata;
    NewBooking(id, m.userId, m.listingId, m.phone, m.totalPrice, m.checkIn, m.checkOut,
               Some(Confirmed), Some(o.id), o.paymentIntent)
  }

  /** `stripeWebhook`. `verified` is the outcome of the signature check on the raw body
      (`None`: it throws); `persisted` is whether the lookup and the save succeed. A
      persistence failure is logged and still acknowledged with 200. */
  function StripeWebhook(s: Store, verified: Option<StripeEvent>, persisted: bool): (r: Step)
    ensures verified.None? ==> r == Step(BadRequest, s)
    ensures verified.Some? ==> r.status == Ok
    ensures verified.Some? && verified.value.kind != CheckoutCompleted ==> r.store == s
    ensures verified.Some? && HasActive(s.bookings, MetadataKey(verified.value.session.metadata))
      ==> r.store == s
    ensures !persisted ==> r.store == s
    ensures r.store.users == s.users && r.store.listings == s.listings
    ensures r.store != s ==>
      && verified.Some? && verified.value.kind == CheckoutCompleted && persisted
      && !HasActive(s.bookings, MetadataKey(verified.value.session.metadata))
    ensures (verified.Some? && verified.value.kind == CheckoutCompleted && persisted
      && !HasActive(s.bookings, MetadataKey(verified.value.session.metadata))) ==>
      && |r.store.bookings| == |s.bookings| + 1
      && r.store.bookings[..|s.bookings|] == s.bookings
      && r.store.bookings[|s.bookings|] == BookingFromSession(NextBookingId(s.bookings), verified.value.session)
  {
    if verified.None? then Step(BadRequest, s)
    else
      var e := verified.value;
      if e.kind != CheckoutCompleted then Step(Ok, s)
      else if HasActive(s.bookings, MetadataKey(e.session.metadata)) then Step(Ok, s)
      else if !persisted then Step(Ok, s)
      else
        var b := BookingFromSession(NextBookingId(s.bookings), e.session);
        assert (s.bookings + [b])[..|s.bookings|] == s.bookings;
        Step(Ok, s.(bookings := s.bookings + [b]))
  }

  /** A delivery changes the count of non-cancelled bookings under its key by at most one:
      from none to one when it inserts. */
  lemma WebhookCount(s: Store, e: StripeEvent, persisted: bool)
    ensures var k := MetadataKey(e.session.metadata);
      var after := CountActive(StripeWebhook(s, Some(e), persisted).store.bookings, k);
      after == (if e.kind == CheckoutCompleted && persisted && CountActive(s.bookings, k) == 0
                then 1 else CountActive(s.bookings, k))
  {
    var k := MetadataKey(e.session.metadata);
    var r := StripeWebhook(s, Some(e), persisted).store;
    CountActivePositive(s.bookings, k);
    if r != s {
      assert r.bookings[..|s.bookings|] == s.bookings;
      assert HoldsKey(r.bookings[|s.bookings|], k);
    }
  }

  /** Deliveries of one event, one after another; each entry says whether that
      delivery's persistence succeeds. */
  function Redeliver(s: Store, e: StripeEvent, outcomes: seq<bool>): Store
    decreases |outcomes|
  {
    if |outcomes| == 0 then s
    else Redeliver(StripeWebhook(s, Some(e), outcomes[0]).store, e, outcomes[1..])
  }

  /** However often a completion event is delivered, at most one non-cancelled booking
      exists for its key when none did before, and exactly one once any delivery has
      been persisted. */
  lemma {:induction false} RedeliveryIdempotent(s: Store, e: StripeEvent, outcomes: seq<bool>)
    requires e.kind == CheckoutCompleted
    requires CountActive(s.bookings, MetadataKey(e.session.metadata)) <= 1
    ensures var k := MetadataKey(e.session.metadata);
      CountActive(Redeliver(s, e, outcomes).bookings, k)
        == (if CountActive(s.bookings, k) == 1 || true in outcomes then 1 else 0)
    decreases |outcomes|
  {
    if |outcomes| > 0 {
      var next := StripeWebhook(s, Some(e), outcomes[0]).store;
      WebhookCount(s, e, outcomes[0]);
      RedeliveryIdempotent(next, e, outcomes[1..]);
      assert outcomes == [outcomes[0]] + outcomes[1..];
    }
  }

  /** Replaying a delivered event changes nothing. */
  lemma ReplayChangesNothing(s: Store, e: StripeEvent, persisted: bool)
    requires e.kind == CheckoutCompleted
    ensures var once := StripeWebhook(s, Some(e), true);
      StripeWebhook(once.store, Some(e), persisted) == once
  {
    var once := StripeWebhook(s, Some(e), true);
    var k := MetadataKey(e.session.metadata);
    if !HasActive(s.bookings, k) {
      assert HoldsKey(once.store.bookings[|s.bookings|], k);
    }
  }

  /** A delivery never reuses a stored booking id. */
  lemma WebhookKeepsIdsUnique(s: Store, verified: Option<StripeEvent>, persisted: bool)
    requires UniqueIds(s)
    ensures UniqueIds(StripeWebhook(s, verified, persisted).store)
  {
  }

  /** No date-overlap guard is live: completion events for two different keys on one
      listing both become confirmed bookings, however their stays overlap. */
  lemma OverlapNotPrevented(s: Store, e1: StripeEvent, e2: StripeEvent)
    requires e1.kind == CheckoutCompleted && e2.kind == CheckoutCompleted
    requires MetadataKey(e1.session.metadata) != MetadataKey(e2.session.metadata)
    requires !HasActive(s.bookings, MetadataKey(e1.session.metadata))
    requires !HasActive(s.bookings, MetadataKey(e2.session.metadata))
    requires e1.session.metadata.listingId == e2.session.metadata.listingId
    requires Overlaps(e1.session.metadata.checkIn, e1.session.metadata.checkOut,
                      e2.session.metadata.checkIn, e2.session.metadata.checkOut)
    ensures var s2 := StripeWebhook(StripeWebhook(s, Some(e1), true).store, Some(e2), true).store;
      var n := |s.bookings|;
      && |s2.bookings| == n + 2
      && s2.bookings[n].status == Confirmed && s2.bookings[n + 1].status == Confirmed
      && s2.bookings[n].listingId == s2.bookings[n + 1].listingId
      && Overlaps(s2.bookings[n].checkIn, s2.bookings[n].checkOut,
                  s2.bookings[n + 1].checkIn, s2.bookings[n + 1].checkOut)
  {
    var k2 := MetadataKey(e2.session.metadata);
    var s1 := StripeWebhook(s, Some(e1), true).store;
    var n := |s.bookings|;
    assert s1.bookings[..n] == s.bookings;
    assert !HoldsKey(s1.bookings[n], k2);
    assert !HasActive(s1.bookings, k2) by {
      forall i | 0 <= i < |s1.bookings| ensures !HoldsKey(s1.bookings[i], k2) {
        if i < n {
          assert s1.bookings[i] == s.bookings[i];
        }
      }
    }
    var s2 := StripeWebhook(s1, Some(e2), true).store;
    assert s2.bookings[..n + 1] == s1.bookings;
    assert s2.bookings[n] == s1.bookings[n];
  }

  /** After a persisted delivery, any number of further deliveries of the same event change
      nothing. */
  lemma {:induction false} RedeliverAfterPersist(s: Store, e: StripeEvent, outcomes: seq<bool>)
    requires e.kind == CheckoutCompleted
    ensures var once := StripeWebhook(s, Some(e), true).store;
      Redeliver(once, e, outcomes) == once
    decreases |outcomes|
  {
    if |outcomes| > 0 {
      ReplayChangesNothing(s, e, outcomes[0]);
      RedeliverAfterPersist(s, e, outcomes[1..]);
    }
  }

  /** The whole happy path: whatever session `createCheckoutSession` opens, its completion
      event, persisted on the first delivery and redelivered any number of times, leaves
      exactly one new booking, confirmed, for the session's guest, listing and dates, at the
      price the session quoted: the nights times the listing's nightly price. */
  lemma SessionThenWebhook(s: Store, userId: Id, listingId: Id, req: SessionRequest, url: string,
                           sessionId: string, intent: Option<string>, later: seq<bool>)
    requires CreateCheckoutSession(s, userId, listingId, req, Some(url)).status == Ok
    ensures
      var reply := CreateCheckoutSession(s, userId, listingId, req, Some(url));
      var l := s.listings[FindListing(s.listings, listingId).value];
      var e := StripeEvent(CheckoutCompleted, SessionObject(sessionId, intent, reply.session.value.metadata));
      var k := BookingKey(userId, listingId, req.checkIn, req.checkOut);
      var after := Redeliver(s, e, [true] + later).bookings;
      && |after| == |s.bookings| + 1
      && after[..|s.bookings|] == s.bookings
      && CountActive(after, k) == 1
      && var b := after[|s.bookings|];
      && b.status == Confirmed && KeyOf(b) == k && b.phone == req.phone.value
      && b.totalPrice == Nights(req.checkIn, req.checkOut) * l.price
      && b.stripeSessionId == Some(sessionId) && b.stripePaymentIntentId == intent
  {
    var reply := CreateCheckoutSession(s, userId, listingId, req, Some(url));
    var e := StripeEvent(CheckoutCompleted, SessionObject(sessionId, intent, reply.session.value.metadata));
    var k := BookingKey(userId, listingId, req.checkIn, req.checkOut);
    assert MetadataKey(e.session.metadata) == k;
    var once := StripeWebhook(s, Some(e), true).store;
    RedeliverAfterPersist(s, e, later);
    assert Redeliver(s, e, [true] + later) == Redeliver(once, e, later) by {
      assert ([true] + later)[1..] == later;
    }
    CountActivePositive(s.bookings, k);
    WebhookCount(s, e, true);
  }

  // ---------------------------------------------------------------- cancellation

  /** The refund call succeeds: it needs the stored payment intent, and the payment
      processor must accept it. */
  predicate Refunded(b: Booking, refund: string -> bool) {
    b.stripePaymentIntentId.Some? && refund(b.stripePaymentIntentId.value)
  }

  /** `cancelBooking`: only a confirmed booking can be cancelled, and only once its refund
      has gone through; a failed refund answers 500 and leaves it confirmed. */
  function CancelBooking(s: Store, bookingId: Id, refund: string -> bool): (r: Step)
    ensures r.store.users == s.users && r.store.listings == s.listings
    ensures FindBooking(s.bookings, bookingId).None? ==> r == Step(NotFound, s)
    ensures FindBooking(s.bookings, bookingId).Some? ==>
      var i := FindBooking(s.bookings, bookingId).value;
      var b := s.bookings[i];
      && (b.status != Confirmed ==> r == Step(BadRequest, s))
      && (b.status == Confirmed && !Refunded(b, refund) ==> r == Step(ServerError, s))
      && (b.status == Confirmed && Refunded(b, refund) ==>
            r.status == Ok && r.store.bookings == s.bookings[i := b.(status := Cancelled)])
  {
    var i := FindBooking(s.bookings, bookingId);
    if i.None? then Step(NotFound, s)
    else
      var b := s.bookings[i.value];
      if b.status != Confirmed then Step(BadRequest, s)
      else if !Refunded(b, refund) then Step(ServerError, s)
      else Step(Ok, s.(bookings := s.bookings[i.value := b.(status := Cancelled)]))
  }

  /** The only change a cancellation makes to any booking is confirmed to cancelled. */
  predicate CancelledFromConfirmed(before: Booking, after: Booking) {
    after == before || (before.status == Confirmed && after == before.(status := Cancelled))
  }

  lemma CancelOnlyFromConfirmed(s: Store, bookingId: Id, refund: string -> bool)
    ensures var r := CancelBooking(s, bookingId, refund);
      && |r.store.bookings| == |s.bookings|
      && (forall j :: 0 <= j < |s.bookings| ==> CancelledFromConfirmed(s.bookings[j], r.store.bookings[j]))
      && (r.status == Ok <==> r.store != s)
  {
  }

  /** Once cancelled, a second cancellation of the same booking is rejected. */
  lemma SecondCancelRejected(s: Store, bookingId: Id, refund1: string -> bool, refund2: string -> bool)
    requires CancelBooking(s, bookingId, refund1).status == Ok
    ensures var once := CancelBooking(s, bookingId, refund1).store;
      CancelBooking(once, bookingId, refund2) == Step(BadRequest, once)
  {
    var i := FindBooking(s.bookings, bookingId).value;
    var once := CancelBooking(s, bookingId, refund1).store;
    assert once.bookings[i].id == bookingId;
    assert FindBooking(once.bookings, bookingId) == Some(i);
  }

  // ---------------------------------------------------------------- soft delete

  /** `markBookingDeleted`: raises the guest's hide flag and touches nothing else. */
  function MarkBookingDeleted(s: Store, bookingId: Id): (r: Step)
    ensures r.store.users == s.users && r.store.listings == s.listings
    ensures FindBooking(s.bookings, bookingId).None? ==> r == Step(NotFound, s)
    ensures FindBooking(s.bookings, bookingId).Some? ==>
      var i := FindBooking(s.bookings, bookingId).value;
      && r.status == Ok
      && |r.store.bookings| == |s.bookings|
      && r.store.bookings[i].isDeleted
      && r.store.bookings[i].(isDeleted := s.bookings[i].isDeleted) == s.bookings[i]
      && forall j :: 0 <= j < |s.bookings| && j != i ==> r.store.bookings[j] == s.bookings[j]
  {
    var i := FindBooking(s.bookings, bookingId);
    if i.None? then Step(NotFound, s)
    else Step(Ok, s.(bookings := s.bookings[i.value := s.bookings[i.value].(isDeleted := true)]))
  }

  lemma MarkDeletedIdempotent(s: Store, bookingId: Id)
    ensures var once := MarkBookingDeleted(s, bookingId);
      MarkBookingDeleted(once.store, bookingId) == once
  {
    var once := MarkBookingDeleted(s, bookingId);
    var i := FindBooking(s.bookings, bookingId);
    if i.Some? {
      assert FindBooking(once.store.bookings, bookingId) == i;
    }
  }
}
