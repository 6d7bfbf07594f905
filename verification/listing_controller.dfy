/** The listing handlers: creation with its validation chain, the partial update with its
    capped image merge, deletion with its best-effort refund cascade, and search. */
module ListingController {
  import opened Options
  import opened Http
  import opened Text
  import opened Seqs
  import opened Models
  import opened RequestValues
  import BookingController

  /** The most images an update may bring a listing to. */
  const MaxImages: nat := 10

  /** The body of `addListing` and of `updateListing`. */
  datatype ListingRequest = ListingRequest(
    title: Value,
    description: Value,
    address: Value,
    city: Value,
    state: Value,
    country: Value,
    price: Value,
    bedrooms: Value,
    bathrooms: Value,
    propertyType: Value,
    images: Value,
    hostPhone: Value,
    amenities: Value)

  // ---------------------------------------------------------------- creation

  /** The first check of `addListing`: every required field is truthy. */
  predicate RequiredPresent(q: ListingRequest) {
    && Truthy(q.title) && Truthy(q.description) && Truthy(q.address)
    && Truthy(q.city) && Truthy(q.state) && Truthy(q.country)
    && Truthy(q.price) && Truthy(q.bedrooms) && Truthy(q.bathrooms) && Truthy(q.hostPhone)
  }

  /** The property type to store: absent means the schema default, anything else must cast
      to a string naming a member of the enumeration. */
  function CastPropertyType(v: Value): Option<PropertyType> {
    if v.Missing? then Some(Apartment)
    else
      var name := CastString(v);
      if name.None? then None else ParsePropertyType(name.value)
  }

  /** Every field of `l` that the request supplies is the request's value after the
      schema's cast. */
  predicate FieldsFromRequest(l: Listing, q: ListingRequest) {
    && CastString(q.title) == Some(l.title)
    && CastString(q.description) == Some(l.description)
    && CastString(q.address) == Some(l.address)
    && CastString(q.city) == Some(l.city)
    && CastString(q.state) == Some(l.state)
    && CastString(q.country) == Some(l.country)
    && CastNumber(q.price) == Some(l.price)
    && CastNumber(q.bedrooms) == Some(l.bedrooms)
    && CastNumber(q.bathrooms) == Some(l.bathrooms)
    && CastNumber(q.hostPhone) == Some(l.hostPhone)
    && CastPropertyType(q.propertyType) == Some(l.propertyType)
  }

  /** The document `new Listing({...})` builds, or `None` when a cast or a validator fails
      at `save()`. */
  function BuildListing(id: Id, host: Id, q: ListingRequest, images: seq<string>,
                        amenities: seq<string>): (r: Option<Listing>)
    ensures r.Some? ==>
      && FieldsFromRequest(r.value, q)
      && r.value.id == id && r.value.host == host
      && r.value.images == images && r.value.amenities == amenities
      && HasRequiredText(r.value)
    ensures !CastsSucceed(q) ==> r.None?
  {
    var title := CastString(q.title);
    var description := CastString(q.description);
    var address := CastString(q.address);
    var city := CastString(q.city);
    var state := CastString(q.state);
    var country := CastString(q.country);
    var price := CastNumber(q.price);
    var bedrooms := CastNumber(q.bedrooms);
    var bathrooms := CastNumber(q.bathrooms);
    var hostPhone := CastNumber(q.hostPhone);
    var propertyType := CastPropertyType(q.propertyType);
    if || title.None? || description.None? || address.None? || city.None? || state.None?
       || country.None? || price.None? || bedrooms.None? || bathrooms.None?
       || hostPhone.None? || propertyType.None?
    then None
    else
      var l := Listing(id, title.value, description.value, address.value, city.value,
                       state.value, country.value, price.value, bedrooms.value, bathrooms.value,
                       propertyType.value, images, amenities, host, hostPhone.value);
      if HasRequiredText(l) then Some(l) else None
  }

  /** The URLs `Promise.all` collects: one per image, in the images' order. */
  function Uploaded(images: seq<string>, upload: string -> string): (r: seq<string>)
    ensures |r| == |images|
    ensures forall i :: 0 <= i < |images| ==> r[i] == upload(images[i])
  {
    if |images| == 0 then [] else [upload(images[0])] + Uploaded(images[1..], upload)
  }

  /** Uploading a concatenation uploads each part, in order, so no image's URL moves. */
  lemma {:induction false} UploadedKeepsOrder(a: seq<string>, b: seq<string>, upload: string -> string)
    ensures Uploaded(a + b, upload) == Uploaded(a, upload) + Uploaded(b, upload)
    decreases |a|
  {
    if |a| == 0 {
      assert a + b == b;
    } else {
      assert (a + b)[1..] == a[1..] + b;
      UploadedKeepsOrder(a[1..], b, upload);
    }
  }

  /** Every check `addListing` makes before it uploads, in the source's order. */
  predicate AddChecksPass(q: ListingRequest) {
    && RequiredPresent(q)
    && !IsNaN(q.price) && !IsNaN(q.bedrooms) && !IsNaN(q.bathrooms) && !IsNaN(q.hostPhone)
    && !(Truthy(q.amenities) && !q.amenities.List?)
    && IsTenDigits(ToText(q.hostPhone).value)
    && ToNumber(q.price).value >= 0
    && BringsImages(q)
  }

  /** Every field survives the schema's casts at `save()`. */
  predicate CastsSucceed(q: ListingRequest) {
    && CastString(q.title).Some? && CastString(q.description).Some? && CastString(q.address).Some?
    && CastString(q.city).Some? && CastString(q.state).Some? && CastString(q.country).Some?
    && CastNumber(q.price).Some? && CastNumber(q.bedrooms).Some? && CastNumber(q.bathrooms).Some?
    && CastNumber(q.hostPhone).Some? && CastPropertyType(q.propertyType).Some?
  }

  /** A truthy value that casts to a string casts to a non-empty one, so it meets the
      `required` validator. */
  lemma TruthyCastsNonEmpty(v: Value)
    requires Truthy(v) && CastString(v).Some?
    ensures CastString(v).value != ""
  {
    if v.Num? {
      assert |Decimal(v.n)| >= 1;
    }
  }

  /** `addListing`. `upload` gives the URL the image store returns for an image and
      `uploadOk` whether every upload succeeds. The checks run in the source's order and the
      first failing one answers 400. */
  function AddListing(s: Store, host: Id, q: ListingRequest, upload: string -> string,
                      uploadOk: bool): (r: Step)
    ensures r.store.users == s.users && r.store.bookings == s.bookings
    ensures r.status in {Created, BadRequest, ServerError}
    ensures r.status == Created <==> AddChecksPass(q) && uploadOk && CastsSucceed(q)
    ensures r.status == ServerError <==> AddChecksPass(q) && !(uploadOk && CastsSucceed(q))
    ensures r.status != Created ==> r.store == s
    ensures !RequiredPresent(q) ==> r == Step(BadRequest, s)
    ensures IsNaN(q.price) || IsNaN(q.bedrooms) || IsNaN(q.bathrooms) || IsNaN(q.hostPhone)
      ==> r == Step(BadRequest, s)
    ensures Truthy(q.amenities) && !q.amenities.List? ==> r == Step(BadRequest, s)
    ensures ToText(q.hostPhone).None? || !IsTenDigits(ToText(q.hostPhone).value) ==> r == Step(BadRequest, s)
    ensures !(q.images.List? && |q.images.items| > 0) ==> r == Step(BadRequest, s)
    ensures r.status == Created ==>
      && |r.store.listings| == |s.listings| + 1
      && r.store.listings[..|s.listings|] == s.listings
      && var l := r.store.listings[|s.listings|];
      && l.host == host
      && (forall j :: 0 <= j < |s.listings| ==> s.listings[j].id != l.id)
      && l.price >= 0 && l.price == ToNumber(q.price).value
      && IsTenDigits(ToText(q.hostPhone).value)
      && l.images == Uploaded(q.images.items, upload) && |l.images| >= 1
      && l.amenities == (if q.amenities.List? then q.amenities.items else [])
      && HasRequiredText(l)
      && FieldsFromRequest(l, q)
  {
    if !RequiredPresent(q) then Step(BadRequest, s)
    else if IsNaN(q.price) || IsNaN(q.bedrooms) || IsNaN(q.bathrooms) || IsNaN(q.hostPhone) then
      Step(BadRequest, s)
    else if Truthy(q.amenities) && !q.amenities.List? then Step(BadRequest, s)
    else if !IsTenDigits(ToText(q.hostPhone).value) then Step(BadRequest, s)
    else if ToNumber(q.price).value < 0 then Step(BadRequest, s)
    else if !(q.images.List? && |q.images.items| > 0) then Step(BadRequest, s)
    else if !uploadOk then Step(ServerError, s)
    else
      var amenities := if Truthy(q.amenities) then q.amenities.items else [];
      var l := BuildListing(NextListingId(s.listings), host, q, Uploaded(q.images.items, upload), amenities);
      if l.None? then
        assert CastsSucceed(q) ==> false by {
          if CastsSucceed(q) {
            TruthyCastsNonEmpty(q.title);
            TruthyCastsNonEmpty(q.description);
            TruthyCastsNonEmpty(q.address);
            TruthyCastsNonEmpty(q.city);
            TruthyCastsNonEmpty(q.state);
            TruthyCastsNonEmpty(q.country);
          }
        }
        Step(ServerError, s)
      else
        assert (s.listings + [l.value])[..|s.listings|] == s.listings;
        Step(Created, s.(listings := s.listings + [l.value]))
  }

  /** A price of 0 fails the presence check, although the later sign check only rejects
      negative prices. */
  lemma ZeroPriceRejected(s: Store, host: Id, q: ListingRequest, upload: string -> string, uploadOk: bool)
    requires q.price == Num(0)
    ensures AddListing(s, host, q, upload, uploadOk) == Step(BadRequest, s)
  {
  }

  /** A listing created from a numeric price has a strictly positive price. */
  lemma NumericPriceCreatedPositive(s: Store, host: Id, q: ListingRequest, upload: string -> string, uploadOk: bool)
    requires q.price.Num?
    requires AddListing(s, host, q, upload, uploadOk).status == Created
    ensures AddListing(s, host, q, upload, uploadOk).store.listings[|s.listings|].price > 0
  {
  }

  // ---------------------------------------------------------------- update

  /** `old ?? new` followed by the schema's cast, for a string field. */
  predicate TextFieldUpdated(v: Value, before: string, after: string) {
    && (v.Missing? ==> after == before)
    && (v.Str? ==> after == v.s)
    && (v.Num? ==> after == Decimal(v.n))
    && !v.List?
  }

  /** `old ?? new` followed by the schema's cast, for a number field. */
  predicate NumberFieldUpdated(v: Value, before: int, after: int) {
    && (v.Missing? ==> after == before)
    && (v.Num? ==> after == v.n)
    && (v.Str? ==> ParseInteger(v.s) == Some(after))
    && !v.List?
  }

  /** `v ?? before` for a string field, cast at `save()`; `None` when the cast fails, which
      only an array does. */
  function MergeText(v: Value, before: string): (r: Option<string>)
    ensures r.None? <==> v.List?
    ensures v.Missing? ==> r == Some(before)
    ensures r.Some? ==> TextMerged(v, before, r.value)
  {
    if v.Missing? then Some(before)
    else
      assert v.Num? ==> |Decimal(v.n)| >= 1;
      CastString(v)
  }

  /** A string field after `??` and the cast, and whether it came out empty. */
  predicate TextMerged(v: Value, before: string, after: string) {
    TextFieldUpdated(v, before, after) && (after == "" <==> EmptiesText(v, before))
  }

  /** The merged string is empty: an empty field kept, or an empty string sent. */
  predicate EmptiesText(v: Value, before: string) {
    (v.Missing? && before == "") || v == Str("")
  }

  /** The schema's Number cast refuses a provided value: an array, or text that is not an
      integer. */
  predicate NumberCastFails(v: Value) {
    v.List? || (v.Str? && ParseInteger(v.s).None?)
  }

  /** `v ?? before` for a number field, cast at `save()`; `None` when the cast fails. */
  function MergeNumber(v: Value, before: int): (r: Option<int>)
    ensures r.None? <==> NumberCastFails(v)
    ensures v.Missing? ==> r == Some(before)
    ensures r.Some? ==> NumberFieldUpdated(v, before, r.value)
  {
    if v.Missing? then Some(before) else CastNumber(v)
  }

  /** The four names of the `propertyType` enumeration. */
  const PropertyTypeNames: set<string> := {"Apartment", "House", "Villa", "Cabin"}

  /** `v ?? before` for the property type: a provided value must cast to a string that names
      a member of the enumeration. */
  function MergePropertyType(v: Value, before: PropertyType): (r: Option<PropertyType>)
    ensures v.Missing? ==> r == Some(before)
    ensures !v.Missing? ==> (r.Some? <==> CastString(v).Some? && CastString(v).value in PropertyTypeNames)
    ensures !v.Missing? && r.Some? ==> PropertyTypeName(r.value) == CastString(v).value
  {
    if v.Missing? then Some(before) else CastPropertyType(v)
  }

  /** `v ?? before` for the amenities: the cast to an array of strings never fails on a
      provided value, and keeps its text. */
  function MergeAmenities(v: Value, before: seq<string>): (r: Option<seq<string>>)
    ensures r.Some?
    ensures v.Missing? ==> r.value == before
    ensures v.List? ==> r.value == v.items
    ensures !v.Missing? ==> Join(r.value, ",") == ToText(v).value
  {
    if v.Missing? then Some(before) else CastStringList(v)
  }

  /** The six text fields of a listing. */
  datatype TextFields = TextFields(title: string, description: string, address: string,
                                   city: string, state: string, country: string)

  /** The four number fields of a listing. */
  datatype NumberFields = NumberFields(price: int, bedrooms: int, bathrooms: int, hostPhone: int)

  predicate TextFieldsFail(q: ListingRequest) {
    q.title.List? || q.description.List? || q.address.List? || q.city.List? || q.state.List?
    || q.country.List?
  }

  function MergeTextFields(l: Listing, q: ListingRequest): (r: Option<TextFields>)
    ensures r.None? <==> TextFieldsFail(q)
    ensures r.Some? ==>
      && TextMerged(q.title, l.title, r.value.title)
      && TextMerged(q.description, l.description, r.value.description)
      && TextMerged(q.address, l.address, r.value.address)
      && TextMerged(q.city, l.city, r.value.city)
      && TextMerged(q.state, l.state, r.value.state)
      && TextMerged(q.country, l.country, r.value.country)
  {
    var title := MergeText(q.title, l.title);
    var description := MergeText(q.description, l.description);
    var address := MergeText(q.address, l.address);
    var city := MergeText(q.city, l.city);
    var state := MergeText(q.state, l.state);
    var country := MergeText(q.country, l.country);
    if || title.None? || description.None? || address.None? || city.None? || state.None?
       || country.None?
    then None
    else Some(TextFields(title.value, description.value, address.value, city.value,
                         state.value, country.value))
  }

  predicate SomeTextEmptied(l: Listing, q: ListingRequest) {
    || EmptiesText(q.title, l.title) || EmptiesText(q.description, l.description)
    || EmptiesText(q.address, l.address) || EmptiesText(q.city, l.city)
    || EmptiesText(q.state, l.state) || EmptiesText(q.country, l.country)
  }

  predicate NumberFieldsFail(q: ListingRequest) {
    NumberCastFails(q.price) || NumberCastFails(q.bedrooms) || NumberCastFails(q.bathrooms)
    || NumberCastFails(q.hostPhone)
  }

  function MergeNumberFields(l: Listing, q: ListingRequest): (r: Option<NumberFields>)
    ensures r.None? <==> NumberFieldsFail(q)
    ensures r.Some? ==>
      && NumberFieldUpdated(q.price, l.price, r.value.price)
      && NumberFieldUpdated(q.bedrooms, l.bedrooms, r.value.bedrooms)
      && NumberFieldUpdated(q.bathrooms, l.bathrooms, r.value.bathrooms)
      && NumberFieldUpdated(q.hostPhone, l.hostPhone, r.value.hostPhone)
  {
    var price := MergeNumber(q.price, l.price);
    var bedrooms := MergeNumber(q.bedrooms, l.bedrooms);
    var bathrooms := MergeNumber(q.bathrooms, l.bathrooms);
    var hostPhone := MergeNumber(q.hostPhone, l.hostPhone);
    if price.None? || bedrooms.None? || bathrooms.None? || hostPhone.None? then None
    else Some(NumberFields(price.value, bedrooms.value, bathrooms.value, hostPhone.value))
  }

  /** `save()` accepts the merged listing: every cast succeeds and no required string ends
      up empty. */
  predicate UpdateAccepted(l: Listing, q: ListingRequest) {
    && !TextFieldsFail(q) && !NumberFieldsFail(q)
    && (!q.propertyType.Missing? ==>
          CastString(q.propertyType).Some? && CastString(q.propertyType).value in PropertyTypeNames)
    && !SomeTextEmptied(l, q)
  }

  /** The listing after every field of the request has been merged in, or `None` when a
      cast or a validator fails at `save()`. */
  function MergeFields(l: Listing, q: ListingRequest, images: seq<string>): (r: Option<Listing>)
    ensures r.Some? <==> UpdateAccepted(l, q)
    ensures r.Some? ==>
      && r.value.id == l.id && r.value.host == l.host && r.value.images == images
      && TextFieldUpdated(q.title, l.title, r.value.title)
      && TextFieldUpdated(q.description, l.description, r.value.description)
      && TextFieldUpdated(q.address, l.address, r.value.address)
      && TextFieldUpdated(q.city, l.city, r.value.city)
      && TextFieldUpdated(q.state, l.state, r.value.state)
      && TextFieldUpdated(q.country, l.country, r.value.country)
      && NumberFieldUpdated(q.price, l.price, r.value.price)
      && NumberFieldUpdated(q.bedrooms, l.bedrooms, r.value.bedrooms)
      && NumberFieldUpdated(q.bathrooms, l.bathrooms, r.value.bathrooms)
      && NumberFieldUpdated(q.hostPhone, l.hostPhone, r.value.hostPhone)
      && (q.propertyType.Missing? ==> r.value.propertyType == l.propertyType)
      && (!q.propertyType.Missing? ==> PropertyTypeName(r.value.propertyType) == CastString(q.propertyType).value)
      && (q.amenities.Missing? ==> r.value.amenities == l.amenities)
      && (!q.amenities.Missing? ==> Join(r.value.amenities, ",") == ToText(q.amenities).value)
      && (q.amenities.List? ==> r.value.amenities == q.amenities.items)
      && HasRequiredText(r.value)
  {
    var text := MergeTextFields(l, q);
    var numbers := MergeNumberFields(l, q);
    var propertyType := MergePropertyType(q.propertyType, l.propertyType);
    var amenities := MergeAmenities(q.amenities, l.amenities);
    if text.None? || numbers.None? || propertyType.None? then None
    else
      var x, n := text.value, numbers.value;
      var m := Listing(l.id, x.title, x.description, x.address, x.city, x.state, x.country,
                       n.price, n.bedrooms, n.bathrooms, propertyType.value, images,
                       amenities.value, l.host, n.hostPhone);
      if HasRequiredText(m) then Some(m) else None
  }

  /** New images are present when the request carries a non-empty array. */
  predicate BringsImages(q: ListingRequest) {
    q.images.List? && |q.images.items| > 0
  }

  /** `updateListing`. A missing listing answers 400. New images that would take the count
      past ten are refused before anything changes; otherwise they are uploaded, appended and
      de-duplicated. Each field is replaced only when the request provides it. */
  function UpdateListing(s: Store, listingId: Id, q: ListingRequest, upload: string -> string,
                         uploadOk: bool): (r: Step)
    ensures r.store.users == s.users && r.store.bookings == s.bookings
    ensures r.status in {Ok, BadRequest, ServerError}
    ensures r.status != Ok ==> r.store == s
    ensures FindListing(s.listings, listingId).None? ==> r == Step(BadRequest, s)
    ensures FindListing(s.listings, listingId).Some? && BringsImages(q) &&
      |s.listings[FindListing(s.listings, listingId).value].images| + |q.images.items| > MaxImages
      ==> r == Step(BadRequest, s)
    ensures r.status == Ok <==>
      && FindListing(s.listings, listingId).Some?
      && var before := s.listings[FindListing(s.listings, listingId).value];
      && !(BringsImages(q) && |before.images| + |q.images.items| > MaxImages)
      && !(BringsImages(q) && !uploadOk)
      && UpdateAccepted(before, q)
    ensures r.status == Ok ==>
      var i := FindListing(s.listings, listingId).value;
      var before := s.listings[i];
      && |r.store.listings| == |s.listings|
      && (forall j :: 0 <= j < |s.listings| && j != i ==> r.store.listings[j] == s.listings[j])
      && var after := r.store.listings[i];
      && MergeFields(before, q, after.images) == Some(after)
      && (!BringsImages(q) ==> after.images == before.images)
      && (BringsImages(q) ==>
            && after.images == Dedup(before.images + Uploaded(q.images.items, upload))
            && |after.images| <= MaxImages && NoDups(after.images))
  {
    var li := FindListing(s.listings, listingId);
    if li.None? then Step(BadRequest, s)
    else
      var l := s.listings[li.value];
      if BringsImages(q) && |l.images| + |q.images.items| > MaxImages then Step(BadRequest, s)
      else if BringsImages(q) && !uploadOk then Step(ServerError, s)
      else
        var added := if BringsImages(q) then Uploaded(q.images.items, upload) else [];
        var images := if |added| > 0 then Dedup(l.images + added) else l.images;
        var m := MergeFields(l, q, images);
        if m.None? then Step(ServerError, s)
        else Step(Ok, s.(listings := s.listings[li.value := m.value]))
  }

  /** The schema has no sign constraint, so an update can store a negative price. */
  lemma UpdateStoresNegativePrice(s: Store, listingId: Id, upload: string -> string)
    requires FindListing(s.listings, listingId).Some?
    requires HasRequiredText(s.listings[FindListing(s.listings, listingId).value])
    ensures var q := ListingRequest(Missing, Missing, Missing, Missing, Missing, Missing, Num(-5),
                                    Missing, Missing, Missing, Missing, Missing, Missing);
      var r := UpdateListing(s, listingId, q, upload, true);
      r.status == Ok && r.store.listings[FindListing(s.listings, listingId).value].price == -5
  {
  }

  /** The images a listing had before an update keep their places in front. */
  lemma UpdateKeepsExistingImagesFirst(s: Store, listingId: Id, q: ListingRequest,
                                       upload: string -> string, uploadOk: bool)
    requires UpdateListing(s, listingId, q, upload, uploadOk).status == Ok
    requires NoDups(s.listings[FindListing(s.listings, listingId).value].images)
    ensures var i := FindListing(s.listings, listingId).value;
      var imgs := UpdateListing(s, listingId, q, upload, uploadOk).store.listings[i].images;
      |imgs| >= |s.listings[i].images| && imgs[..|s.listings[i].images|] == s.listings[i].images
  {
    var i := FindListing(s.listings, listingId).value;
    if BringsImages(q) {
      DedupKeepsDistinctPrefix(s.listings[i].images, Uploaded(q.images.items, upload));
    }
  }

  // ---------------------------------------------------------------- deletion

  /** `if (booking.stripePaymentIntentId)`: a non-empty stored payment intent. */
  predicate HasIntent(b: Booking) {
    b.stripePaymentIntentId.Some? && b.stripePaymentIntentId.value != ""
  }

  /** The cascade refunds the booking: confirmed, on this listing, with an intent whose
      refund the payment processor accepts. */
  predicate CascadeRefunds(b: Booking, listingId: Id, refund: string -> bool) {
    b.listingId == listingId && b.status == Confirmed && HasIntent(b)
    && refund(b.stripePaymentIntentId.value)
  }

  /** The booking is one the cascade cancels: refunded, and its `save()` succeeds. */
  predicate CascadeCancels(b: Booking, listingId: Id, refund: string -> bool, saved: Id -> bool) {
    CascadeRefunds(b, listingId, refund) && saved(b.id)
  }

  /** `deleteListing`. Every confirmed booking of the listing is refunded and cancelled one
      at a time; a failed refund is logged and the loop goes on. The listing is then removed,
      whatever the refunds did; a missing listing answers 404 after the cascade has run.
      `saved` says whether a refunded booking's `save()` succeeds: a failure is swallowed by
      the same catch as a failed refund, so the money goes back while the booking stays
      confirmed. */
  method DeleteListing(s: Store, listingId: Id, refund: string -> bool, saved: Id -> bool)
    returns (r: Step)
    ensures r.store.users == s.users
    ensures |r.store.bookings| == |s.bookings|
    ensures forall j :: 0 <= j < |s.bookings| ==>
      (r.store.bookings[j] != s.bookings[j] <==> CascadeCancels(s.bookings[j], listingId, refund, saved))
    ensures forall j :: 0 <= j < |s.bookings| ==>
      r.store.bookings[j] == s.bookings[j] || r.store.bookings[j] == s.bookings[j].(status := Cancelled)
    ensures forall j :: 0 <= j < |s.bookings| ==>
      (CascadeRefunds(s.bookings[j], listingId, refund) && !saved(s.bookings[j].id)
       ==> r.store.bookings[j].status == Confirmed)
    ensures FindListing(s.listings, listingId).None? ==>
      r.status == NotFound && r.store.listings == s.listings
    ensures FindListing(s.listings, listingId).Some? ==>
      var i := FindListing(s.listings, listingId).value;
      r.status == Ok && r.store.listings == s.listings[..i] + s.listings[i + 1..]
  {
    var bookings := s.bookings;
    var k := 0;
    while k < |bookings|
      invariant 0 <= k <= |bookings| && |bookings| == |s.bookings|
      invariant forall j :: 0 <= j < k ==>
        (bookings[j] != s.bookings[j] <==> CascadeCancels(s.bookings[j], listingId, refund, saved))
      invariant forall j :: 0 <= j < k ==>
        bookings[j] == s.bookings[j] || bookings[j] == s.bookings[j].(status := Cancelled)
      invariant forall j :: k <= j < |bookings| ==> bookings[j] == s.bookings[j]
    {
      var b := bookings[k];
      if b.listingId == listingId && b.status == Confirmed && HasIntent(b) {
        if refund(b.stripePaymentIntentId.value) && saved(b.id) {
          bookings := bookings[k := b.(status := Cancelled)];
        }
      }
      k := k + 1;
    }
    var li := FindListing(s.listings, listingId);
    if li.None? {
      r := Step(NotFound, s.(bookings := bookings));
    } else {
      r := Step(Ok, Store(s.users, RemoveAt(s.listings, li.value), bookings));
    }
  }

  /** With unique ids, no listing with the deleted id remains. */
  lemma DeletedListingGone(ls: seq<Listing>, listingId: Id)
    requires forall i, j :: 0 <= i < j < |ls| ==> ls[i].id != ls[j].id
    requires FindListing(ls, listingId).Some?
    ensures var i := FindListing(ls, listingId).value;
      forall l :: l in ls[..i] + ls[i + 1..] ==> l.id != listingId
  {
    var i := FindListing(ls, listingId).value;
    var rest := ls[..i] + ls[i + 1..];
    forall l | l in rest
      ensures l.id != listingId
    {
      var j :| 0 <= j < |rest| && rest[j] == l;
      if j < i {
        assert rest[j] == ls[j] && ls[j].id != ls[i].id;
      } else {
        assert rest[j] == ls[j + 1] && ls[i].id != ls[j + 1].id;
      }
    }
  }

  // ---------------------------------------------------------------- search

  /** The query of `searchListings`. An absent or empty parameter is `""` or `None`. */
  datatype SearchQuery = SearchQuery(location: string, priceMin: Option<int>, priceMax: Option<int>,
                                     checkIn: Option<Millis>, checkOut: Option<Millis>)

  /** Location: a case-insensitive match on city, state or country. */
  predicate LocationMatches(l: Listing, location: string) {
    location == "" || ContainsIgnoringCase(l.city, location)
    || ContainsIgnoringCase(l.state, location) || ContainsIgnoringCase(l.country, location)
  }

  /** Price bounds, both inclusive. */
  predicate PriceMatches(l: Listing, q: SearchQuery) {
    (q.priceMin.Some? ==> l.price >= q.priceMin.value) && (q.priceMax.Some? ==> l.price <= q.priceMax.value)
  }

  /** Some confirmed booking of listing `id` overlaps the stay [checkIn, checkOut). */
  predicate BookedDuring(bs: seq<Booking>, id: Id, checkIn: Millis, checkOut: Millis) {
    exists i | 0 <= i < |bs| :: bs[i].listingId == id && bs[i].status == Confirmed
                               && Overlaps(bs[i].checkIn, bs[i].checkOut, checkIn, checkOut)
  }

  /** A listing is offered when it matches location and price and, if both dates are given,
      is not booked during the stay. */
  predicate Offered(l: Listing, q: SearchQuery, bs: seq<Booking>) {
    && LocationMatches(l, q.location)
    && PriceMatches(l, q)
    && (q.checkIn.Some? && q.checkOut.Some? ==> !BookedDuring(bs, l.id, q.checkIn.value, q.checkOut.value))
  }

  /** The listings the query offers: each as often as it is stored, in store order. */
  function FilterOffered(ls: seq<Listing>, q: SearchQuery, bs: seq<Booking>): (r: seq<Listing>)
    ensures forall l :: multiset(r)[l] == if Offered(l, q, bs) then multiset(ls)[l] else 0
    ensures forall l :: l in r <==> l in ls && Offered(l, q, bs)
    ensures |r| <= |ls|
  {
    var offered := (l: Listing) => Offered(l, q, bs);
    Seqs.FilterCounts(ls, offered);
    Seqs.FilterMembers(ls, offered);
    Seqs.Filter(ls, offered)
  }

  /** The offered listings of a concatenation are those of each part, in order. */
  lemma FilterOfferedKeepsOrder(a: seq<Listing>, b: seq<Listing>, q: SearchQuery, bs: seq<Booking>)
    ensures FilterOffered(a + b, q, bs) == FilterOffered(a, q, bs) + FilterOffered(b, q, bs)
  {
    Seqs.FilterKeepsOrder(a, b, (l: Listing) => Offered(l, q, bs));
  }

  /** `searchListings`: the stored listings the query offers, in store order. */
  function SearchListings(s: Store, q: SearchQuery): (r: seq<Listing>)
    ensures forall l :: multiset(r)[l] == if Offered(l, q, s.bookings) then multiset(s.listings)[l] else 0
    ensures forall l :: l in r <==> l in s.listings && Offered(l, q, s.bookings)
  {
    FilterOffered(s.listings, q, s.bookings)
  }

  /** A stay that starts when a confirmed booking ends does not exclude the listing. */
  lemma BackToBackStaysOffered(s: Store, q: SearchQuery, l: Listing)
    requires l in s.listings && LocationMatches(l, q.location) && PriceMatches(l, q)
    requires q.checkIn.Some? && q.checkOut.Some?
    requires forall i :: (0 <= i < |s.bookings| && s.bookings[i].listingId == l.id
               && s.bookings[i].status == Confirmed) ==>
               s.bookings[i].checkOut <= q.checkIn.value || q.checkOut.value <= s.bookings[i].checkIn
    ensures l in SearchListings(s, q)
  {
  }

  /** Cancelled and pending bookings never hide a listing. */
  lemma OnlyConfirmedBookingsHide(s: Store, q: SearchQuery, l: Listing)
    requires l in s.listings && LocationMatches(l, q.location) && PriceMatches(l, q)
    requires forall i :: 0 <= i < |s.bookings| && s.bookings[i].listingId == l.id ==>
               s.bookings[i].status != Confirmed
    ensures l in SearchListings(s, q)
  {
  }
}
