/** The stored records: bookings, listings and users, their enumerations and defaults,
    and the in-memory store the handlers read and write. Dates are epoch milliseconds
    and money is whole rupees. */
module Models {
  import opened Options

  type Id = nat
  type Millis = int

  datatype BookingStatus = Pending | Confirmed | Cancelled

  function StatusName(s: BookingStatus): string {
    match s
    case Pending => "pending"
    case Confirmed => "confirmed"
    case Cancelled => "cancelled"
  }

  /** The schema's `enum` validator: only the three names are accepted. */
  function ParseStatus(name: string): (r: Option<BookingStatus>)
    ensures r.Some? ==> StatusName(r.value) == name
  {
    if name == "pending" then Some(Pending)
    else if name == "confirmed" then Some(Confirmed)
    else if name == "cancelled" then Some(Cancelled)
    else None
  }

  lemma StatusNamesRoundTrip(s: BookingStatus)
    ensures ParseStatus(StatusName(s)) == Some(s)
  {
  }

  /** A booking document. The controllers also keep the payment processor's checkout
      session id and payment-intent id on it; the schema declares neither field, and the
      model keeps them as the controllers intend. */
  datatype Booking = Booking(
    id: Id,
    userId: Id,
    listingId: Id,
    phone: int,
    totalPrice: int,
    checkIn: Millis,
    checkOut: Millis,
    status: BookingStatus,
    isDeleted: bool,
    stripeSessionId: Option<string>,
    stripePaymentIntentId: Option<string>)

  /** `new Booking({...})`: every required field is given; `status` defaults to
      confirmed and `isDeleted` to false. */
  function NewBooking(id: Id, userId: Id, listingId: Id, phone: int, totalPrice: int,
                      checkIn: Millis, checkOut: Millis, status: Option<BookingStatus>,
                      sessionId: Option<string>, paymentIntent: Option<string>): (b: Booking)
    ensures b.status == (if status.Some? then status.value else Confirmed)
    ensures !b.isDeleted
    ensures b.id == id && b.userId == userId && b.listingId == listingId && b.phone == phone
    ensures b.totalPrice == totalPrice && b.checkIn == checkIn && b.checkOut == checkOut
    ensures b.stripeSessionId == sessionId && b.stripePaymentIntentId == paymentIntent
  {
    Booking(id, userId, listingId, phone, totalPrice, checkIn, checkOut,
            status.GetOr(Confirmed), false, sessionId, paymentIntent)
  }

  /** `new Booking({...})` loses nothing: every booking the guest has not hidden is what the
      constructor builds from that booking's own fields. */
  lemma NewBookingOfFields(b: Booking)
    requires !b.isDeleted
    ensures NewBooking(b.id, b.userId, b.listingId, b.phone, b.totalPrice, b.checkIn, b.checkOut,
                       Some(b.status), b.stripeSessionId, b.stripePaymentIntentId) == b
    ensures b.status == Confirmed <==>
      NewBooking(b.id, b.userId, b.listingId, b.phone, b.totalPrice, b.checkIn, b.checkOut,
                 None, b.stripeSessionId, b.stripePaymentIntentId) == b
  {
  }

  datatype PropertyType = Apartment | House | Villa | Cabin

  function PropertyTypeName(p: PropertyType): string {
    match p
    case Apartment => "Apartment"
    case House => "House"
    case Villa => "Villa"
    case Cabin => "Cabin"
  }

  /** The schema's `enum` validator for `propertyType`. */
  function ParsePropertyType(name: string): (r: Option<PropertyType>)
    ensures r.Some? ==> PropertyTypeName(r.value) == name
  {
    if name == "Apartment" then Some(Apartment)
    else if name == "House" then Some(House)
    else if name == "Villa" then Some(Villa)
    else if name == "Cabin" then Some(Cabin)
    else None
  }

  lemma PropertyTypeNamesRoundTrip(p: PropertyType)
    ensures ParsePropertyType(PropertyTypeName(p)) == Some(p)
  {
  }

  /** An absent `propertyType` takes the schema default; a present one must name a member
      of the enumeration. */
  function PropertyTypeOrDefault(name: Option<string>): (r: Option<PropertyType>)
    ensures name.None? ==> r == Some(Apartment)
    ensures name.Some? ==> (r.Some? <==> name.value in {"Apartment", "House", "Villa", "Cabin"})
  {
    if name.None? then Some(Apartment) else ParsePropertyType(name.value)
  }

  /** A listing document. The schema sets no sign constraint on `price`. */
  datatype Listing = Listing(
    id: Id,
    title: string,
    description: string,
    address: string,
    city: string,
    state: string,
    country: string,
    price: int,
    bedrooms: int,
    bathrooms: int,
    propertyType: PropertyType,
    images: seq<string>,
    amenities: seq<string>,
    host: Id,
    hostPhone: int)

  /** The `required` validators on the listing's strings: a required string field fails
      validation when it is empty. Numbers and the host reference are always present in
      this model's types. */
  predicate HasRequiredText(l: Listing) {
    && l.title != "" && l.description != "" && l.address != ""
    && l.city != "" && l.state != "" && l.country != ""
  }

  datatype User = User(id: Id, userName: string, email: string, password: string, avatar: string)

  /** The in-memory stand-in for the three collections. */
  datatype Store = Store(users: seq<User>, listings: seq<Listing>, bookings: seq<Booking>)

  /** The answer of a handler that may write: its status and the store afterwards. */
  datatype Step = Step(status: int, store: Store)

  /** Two stays share an instant: half-open intervals, so a check-out and a check-in on
      the same instant do not overlap. */
  predicate Overlaps(aIn: Millis, aOut: Millis, bIn: Millis, bOut: Millis) {
    aIn < bOut && bIn < aOut
  }

  /** The position of the first record whose key is `k`: the lookup behind `findById` and
      `findOne`, written once for every collection. */
  function FirstWithKey<T, K(==)>(xs: seq<T>, key: T -> K, k: K): (r: Option<nat>)
    ensures r.Some? ==> r.value < |xs| && key(xs[r.value]) == k
    ensures r.Some? ==> forall j :: 0 <= j < r.value ==> key(xs[j]) != k
    ensures r.None? <==> forall j :: 0 <= j < |xs| ==> key(xs[j]) != k
  {
    if |xs| == 0 then None
    else if key(xs[0]) == k then Some(0)
    else
      var r := FirstWithKey(xs[1..], key, k);
      if r.Some? then Some(r.value + 1) else None
  }

  /** A number above every stored id: the database assigns a fresh ObjectId. */
  function AboveAll<T>(xs: seq<T>, id: T -> Id): (r: Id)
    ensures forall j :: 0 <= j < |xs| ==> id(xs[j]) < r
  {
    if |xs| == 0 then 0
    else
      var rest := AboveAll(xs[..|xs| - 1], id);
      if id(xs[|xs| - 1]) + 1 > rest then id(xs[|xs| - 1]) + 1 else rest
  }

  function FindBooking(bs: seq<Booking>, id: Id): Option<nat> {
    FirstWithKey(bs, (b: Booking) => b.id, id)
  }

  function FindListing(ls: seq<Listing>, id: Id): Option<nat> {
    FirstWithKey(ls, (l: Listing) => l.id, id)
  }

  function FindUser(us: seq<User>, id: Id): Option<nat> {
    FirstWithKey(us, (u: User) => u.id, id)
  }

  /** `User.findOne({ email })`: an exact, case-sensitive match. */
  function FindUserByEmail(us: seq<User>, email: string): Option<nat> {
    FirstWithKey(us, (u: User) => u.email, email)
  }

  function NextBookingId(bs: seq<Booking>): Id {
    AboveAll(bs, (b: Booking) => b.id)
  }

  function NextListingId(ls: seq<Listing>): Id {
    AboveAll(ls, (l: Listing) => l.id)
  }

  function NextUserId(us: seq<User>): Id {
    AboveAll(us, (u: User) => u.id)
  }

  /** Document ids are unique within each collection. */
  predicate UniqueIds(s: Store) {
    && (forall i, j :: 0 <= i < j < |s.bookings| ==> s.bookings[i].id != s.bookings[j].id)
    && (forall i, j :: 0 <= i < j < |s.listings| ==> s.listings[i].id != s.listings[j].id)
    && (forall i, j :: 0 <= i < j < |s.users| ==> s.users[i].id != s.users[j].id)
  }
}
