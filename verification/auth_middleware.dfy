/** The request guards: bearer-token authentication and the two ownership checks. A guard
    either passes the request on (`next()` once, with what it attached) or answers and stops. */
module AuthMiddleware {
  import opened Options
  import opened Http
  import opened Text
  import opened Models
  import BookingController
  import DashboardController

  datatype Guard<T> = Next(value: T) | Halt(status: Status)

  const BearerPrefix: string := "Bearer "

  /** `authorization.split(" ")[1]` when the header starts with `"Bearer "`: the text after
      the prefix up to the next blank, possibly empty. */
  function BearerToken(header: Option<string>): (r: Option<string>)
    ensures r.Some? <==> header.Some? && BearerPrefix <= header.value
    ensures r.Some? ==>
      var h := header.value;
      var n := |BearerPrefix| + |r.value|;
      && ' ' !in r.value
      && n <= |h| && h[..n] == BearerPrefix + r.value
      && (n == |h| || h[n] == ' ')
  {
    if header.Some? && BearerPrefix <= header.value then
      var h := header.value;
      var rest := h[|BearerPrefix|..];
      assert h == "Bearer" + [' '] + rest;
      SplitPrefix("Bearer", rest, ' ');
      SplitFirstPiece(rest, ' ');
      Some(Split(h, ' ')[1])
    else None
  }

  /** What `jwt.verify` does with a token: decodes it to a user id, yields a falsy value,
      or throws. */
  datatype JwtOutcome = Decoded(userId: Id) | Falsy | Threw

  /** The user attached to the request: `select("-password")` leaves the password out. */
  datatype AuthUser = AuthUser(id: Id, userName: string, email: string, avatar: string)

  function WithoutPassword(u: User): AuthUser {
    AuthUser(u.id, u.userName, u.email, u.avatar)
  }

  /** `protectRoute`. A missing header, another scheme or an empty token answers 401; a
      token the verifier rejects by throwing answers 500; an unknown user 404. */
  function ProtectRoute(users: seq<User>, header: Option<string>, verify: string -> JwtOutcome): (r: Guard<AuthUser>)
    ensures BearerToken(header).None? || BearerToken(header).value == "" ==> r == Halt(Unauthorized)
    ensures BearerToken(header).Some? && BearerToken(header).value != "" ==>
      var outcome := verify(BearerToken(header).value);
      && (outcome == Threw ==> r == Halt(ServerError))
      && (outcome == Falsy ==> r == Halt(Unauthorized))
      && (outcome.Decoded? && FindUser(users, outcome.userId).Some? ==>
            r == Next(WithoutPassword(users[FindUser(users, outcome.userId).value])))
    ensures r.Next? ==>
      && BearerToken(header).Some? && BearerToken(header).value != ""
      && verify(BearerToken(header).value) == Decoded(r.value.id)
      && exists i | 0 <= i < |users| :: users[i].id == r.value.id && r.value == WithoutPassword(users[i])
    ensures r.Halt? ==> r.status in {Unauthorized, NotFound, ServerError}
    ensures r == Halt(NotFound) <==>
      && BearerToken(header).Some? && BearerToken(header).value != ""
      && verify(BearerToken(header).value).Decoded?
      && forall i :: 0 <= i < |users| ==> users[i].id != verify(BearerToken(header).value).userId
  {
    var token := BearerToken(header);
    if token.None? || token.value == "" then Halt(Unauthorized)
    else
      match verify(token.value)
      case Threw => Halt(ServerError)
      case Falsy => Halt(Unauthorized)
      case Decoded(uid) =>
        var i := FindUser(users, uid);
        if i.None? then Halt(NotFound) else Next(WithoutPassword(users[i.value]))
  }

  /** A header with another scheme, or none, never authenticates. */
  lemma OtherSchemesRejected(users: seq<User>, header: string, verify: string -> JwtOutcome)
    requires !(BearerPrefix <= header)
    ensures ProtectRoute(users, Some(header), verify) == Halt(Unauthorized)
    ensures ProtectRoute(users, None, verify) == Halt(Unauthorized)
  {
  }

  /** A bare `"Bearer "` header carries the empty token, which is refused. */
  lemma BareBearerRejected(users: seq<User>, verify: string -> JwtOutcome)
    ensures BearerToken(Some("Bearer ")) == Some("")
    ensures ProtectRoute(users, Some("Bearer "), verify) == Halt(Unauthorized)
  {
    var t := BearerToken(Some("Bearer "));
    assert |BearerPrefix| + |t.value| <= 7;
  }

  /** `isListingOwner`: 404 for a missing listing, 403 unless the requester hosts it. */
  function IsListingOwner(s: Store, listingId: Id, requester: Id): (r: Guard<()>)
    ensures FindListing(s.listings, listingId).None? ==> r == Halt(NotFound)
    ensures FindListing(s.listings, listingId).Some? ==>
      (s.listings[FindListing(s.listings, listingId).value].host != requester ==> r == Halt(Forbidden))
    ensures r.Next? <==>
      FindListing(s.listings, listingId).Some? &&
      s.listings[FindListing(s.listings, listingId).value].host == requester
    ensures r.Halt? ==> r.status in {NotFound, Forbidden}
  {
    var i := FindListing(s.listings, listingId);
    if i.None? then Halt(NotFound)
    else if s.listings[i.value].host != requester then Halt(Forbidden)
    else Next(())
  }

  /** `isBookingOwner`: 404 for a missing booking, 403 unless the requester made it; on
      success the booking is attached to the request. */
  function IsBookingOwner(s: Store, bookingId: Id, requester: Id): (r: Guard<Booking>)
    ensures FindBooking(s.bookings, bookingId).None? ==> r == Halt(NotFound)
    ensures FindBooking(s.bookings, bookingId).Some? ==>
      (s.bookings[FindBooking(s.bookings, bookingId).value].userId != requester ==> r == Halt(Forbidden))
    ensures r.Next? <==>
      FindBooking(s.bookings, bookingId).Some? &&
      s.bookings[FindBooking(s.bookings, bookingId).value].userId == requester
    ensures r.Next? ==> r.value.id == bookingId && r.value.userId == requester && r.value in s.bookings
    ensures r.Halt? ==> r.status in {NotFound, Forbidden}
  {
    var i := FindBooking(s.bookings, bookingId);
    if i.None? then Halt(NotFound)
    else if s.bookings[i.value].userId != requester then Halt(Forbidden)
    else Next(s.bookings[i.value])
  }

  /** The ownership guard in front of the booking routes answers exactly as `getBooking`
      does on its own: the same refusal, or the same booking. */
  lemma BookingGuardAgreesWithGetBooking(s: Store, bookingId: Id, requester: Id)
    ensures var g := IsBookingOwner(s, bookingId, requester);
      var reply := BookingController.GetBooking(s, bookingId, requester);
      && (g.Halt? ==> reply == Reply(g.status, None))
      && (g.Next? ==> reply == Reply(Ok, Some(g.value)))
  {
  }

  /** With unique listing ids, the listing guard lets the requester through exactly for the
      listings that the dashboard counts as theirs. */
  lemma ListingGuardPassesHostedListings(s: Store, listingId: Id, requester: Id)
    requires UniqueIds(s)
    ensures IsListingOwner(s, listingId, requester).Next? <==>
      exists l :: l in DashboardController.HostListings(s.listings, requester) && l.id == listingId
  {
    var mine := DashboardController.HostListings(s.listings, requester);
    var i := FindListing(s.listings, listingId);
    if IsListingOwner(s, listingId, requester).Next? {
      assert s.listings[i.value] in mine;
    }
    if l :| l in mine && l.id == listingId {
      var k :| 0 <= k < |s.listings| && s.listings[k] == l;
      assert i.Some?;
      assert i.value == k;
    }
  }
}
