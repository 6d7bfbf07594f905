# StayFinder booking core in Dafny

StayFinder is a holiday-rental app. Hosts publish listings. Guests pay for a stay through a
hosted checkout page, and the payment processor's webhook turns a completed payment into a
confirmed booking. Guests can cancel a confirmed booking (with a refund) and hide it from
their bookings page. Hosts can edit or delete listings (deletion refunds and cancels the
confirmed bookings on them) and read a dashboard roll-up.

The model keeps the server's three collections in one immutable `Store` of sequences
(`Models`). Every handler is a pure function — one method, for the refund loop of
`deleteListing` — from the store, the request and the outcomes of the external services to
an HTTP status and the store afterwards.

Modules, following the program's files:

- `Models`: the Booking, Listing and User records, their enumerations and defaults, lookups
  and fresh ids.
- `RequestValues`: JSON body fields with JavaScript truthiness, `isNaN`, `toString` and the
  schema casts.
- `BookingController`, `ListingController`, `DashboardController`, `AuthController`: the
  handlers.
- `AuthMiddleware`: the bearer-token and ownership guards.
- `MyBookingsPage`, `BookingModal`, `UpdateListingModal`, `ListingForm`: the client-side
  logic.
- `Text`, `Seqs`, `Options`, `Http`: shared helpers (string functions with their JavaScript
  meaning, sequence operations, `Option`, status codes).

External services are parameters:

- the signature check of a webhook event is an `Option<StripeEvent>` (`None`: it throws);
- a refund is `refund: string -> bool` on the payment-intent id, and the save that follows it in `deleteListing` is `saved: Id -> bool`;
- the image upload is `upload` plus `uploadOk`;
- password hashing and comparison are `hash` and `matches`;
- token verification is `verify: string -> JwtOutcome`;
- the client's date parsing is `parseDate`.

The model follows the controllers' intent where the code and the schema disagree:

- Bookings keep the checkout-session id and the payment-intent id. The controllers write and
  read both, but `Booking.model.js` declares neither.
- Search compares against the bookings' stay dates. The controller queries fields named
  `checkIn`/`checkOut`; the schema names them `checkInDate`/`checkOutDate`.

## Model

| member | source | states |
|---|---|---|
| Models.NewBookingOfFields | backend/src/models/Booking.model.js:5-46 | a booking that is not hidden is rebuilt exactly by the constructor from its own fields; leaving the status out rebuilds it iff it is confirmed, the schema default |
| Models.ParseStatus | backend/src/models/Booking.model.js:37-41 | only "pending", "confirmed" and "cancelled" are accepted, each naming its status |
| Models.StatusNamesRoundTrip | backend/src/models/Booking.model.js:37-41 | every status's stored name is accepted back as that status |
| Models.ParsePropertyType | backend/src/models/Listing.model.js:50-54 | only the four enumeration names are accepted, each naming its type |
| Models.PropertyTypeNamesRoundTrip | backend/src/models/Listing.model.js:50-54 | every property type's name is accepted back as that type |
| Models.PropertyTypeOrDefault | backend/src/models/Listing.model.js:50-54 | an absent property type becomes Apartment; a present one is accepted iff it is one of the four names |
| Models.FirstWithKey | backend/src/controllers/booking.controller.js:192-197 | a lookup by id or email (`findById`, `findOne`) returns the first record carrying the key, and fails iff no record carries it |
| Models.AboveAll | backend/src/controllers/booking.controller.js:388-399 | a newly inserted booking, listing or user gets an id above every stored one, so no stored record has it |
| RequestValues.CastNumber | backend/src/models/Listing.model.js:35-48 | the Number cast keeps numbers and, when it succeeds, agrees with JavaScript's Number() |
| RequestValues.CastString | backend/src/models/Listing.model.js:5-33 | the String cast keeps strings and, when it succeeds, agrees with toString() |
| RequestValues.CastStringList | backend/src/models/Listing.model.js:58-61 | the [String] cast fails iff the value is absent, keeps an array as it is, wraps any other value in a one-element array, and the comma-joined result is the value's text |
| Text.TrimStart | client/src/components/UpdateListingModal.tsx:80 | trimStart drops exactly a leading run of white space |
| Text.TrimEnd | client/src/components/UpdateListingModal.tsx:80 | trimEnd drops exactly a trailing run of white space |
| Text.Trim | client/src/components/UpdateListingModal.tsx:80 | trim yields a contiguous part of its input with white space only outside it, and nothing but white space is dropped: the result has no white space at either end |
| Text.TrimOfTrimmed | client/src/components/UpdateListingModal.tsx:80 | trim leaves an already trimmed string unchanged |
| Text.TrimAfterBlank | client/src/components/UpdateListingModal.tsx:27 | the blank that join(", ") puts before a trimmed piece vanishes under trim |
| Text.Split | client/src/components/UpdateListingModal.tsx:79 | split(",") always yields at least one piece and no piece contains the separator |
| Text.JoinSplit | client/src/components/UpdateListingModal.tsx:79 | joining the pieces of a split with the separator rebuilds the string |
| Text.SplitJoin | client/src/components/UpdateListingModal.tsx:27 | splitting a join gives back the pieces when none contains the separator |
| Text.SplitPrefix | backend/src/middlewares/auth.middleware.js:98 | a separator-free prefix followed by the separator splits off as the first piece |
| Text.SplitFirstPiece | backend/src/middlewares/auth.middleware.js:98 | the first piece of a split is the longest prefix without the separator |
| Text.LowerIdempotent | backend/src/controllers/listing.controller.js:326-330 | lower-casing an already lower-cased text changes nothing |
| Text.LowerOfPart | backend/src/controllers/listing.controller.js:326-330 | the lower-cased part of a text is the same part of the lower-cased text, so a case-insensitive match at a position is a match of the lower-cased texts there |
| Text.ParseDecimal | backend/src/controllers/listing.controller.js:105 | an integer's decimal text reads back as the same integer |
| Text.TenDigitNumber | backend/src/controllers/listing.controller.js:104-110 | an integer phone prints as ten digits iff it lies between 10^9 and 10^10 - 1 |
| Seqs.RemoveAt | client/src/components/UpdateListingModal.tsx:56-58 | removing index k drops exactly that element and keeps the others in order; any other index changes nothing (ListingForm.tsx:53-55 does the same) |
| Seqs.Dedup | backend/src/controllers/listing.controller.js:236-240 | the set-based de-duplication has no duplicates, loses no value, adds none, and is never longer |
| Seqs.DedupKeepsFirstOccurrenceOrder | backend/src/controllers/listing.controller.js:237-239 | the kept values appear in the order of their first occurrences |
| Seqs.DedupOfDistinct | backend/src/controllers/listing.controller.js:237-239 | a list without duplicates is unchanged |
| Seqs.DedupKeepsDistinctPrefix | backend/src/controllers/listing.controller.js:237-239 | the existing duplicate-free images stay in front, unchanged |
| Seqs.AppendBelowCapUndone | client/src/components/ListingForm.tsx:44-50 | below the cap, appending grows the list by one and removing the last element gives the list back |
| Seqs.AppendAllStaysCapped | client/src/components/UpdateListingModal.tsx:44-52 | any run of capped additions keeps the list within the cap, keeps its old elements in front, and fills it to the cap or takes every value |
| Seqs.RemoveAll | client/src/components/ListingForm.tsx:174 | filtering out a value leaves no copy of it and is never longer |
| Seqs.RemoveAllCounts | client/src/components/ListingForm.tsx:174 | filtering out a value removes every copy of it and keeps every other value's multiplicity |
| Seqs.RemoveAllKeepsOrder | client/src/components/ListingForm.tsx:174 | the filter distributes over concatenation, so the order is kept |
| Seqs.Filter | client/src/pages/MyBookingsPage.tsx:101-108 | a filter is never longer than its input |
| Seqs.FilterMembers | client/src/pages/MyBookingsPage.tsx:101-108 | a value is kept iff it occurs in the input and satisfies the condition |
| Seqs.FilterCounts | backend/src/controllers/booking.controller.js:51 | a value satisfying the condition keeps its multiplicity; any other value does not occur |
| Seqs.FilterKeepsOrder | backend/src/controllers/booking.controller.js:51 | a filter distributes over concatenation, so it keeps the input order |
| BookingController.CeilDiv | backend/src/controllers/booking.controller.js:307-310 | Math.ceil(d / k) is the least q with q * k >= d, also for zero and negative d |
| BookingController.NightsOfWholeDays | backend/src/controllers/booking.controller.js:307-310 | a stay of exactly n days is charged n nights |
| BookingController.PartDayChargedAsNight | backend/src/controllers/booking.controller.js:307-310 | a part day beyond n whole days is charged as an extra night |
| BookingController.CountActivePositive | backend/src/controllers/booking.controller.js:375-381 | the count of non-cancelled bookings under a key is positive iff one exists |
| BookingController.GetBooking | backend/src/controllers/booking.controller.js:12-27 | 404 when absent, 403 when another guest's; success iff data is returned, and the data is the requester's booking with that id |
| BookingController.BookingsOf | backend/src/controllers/booking.controller.js:51 | the query returns each of the user's stored bookings as often as it is stored and no other booking |
| BookingController.BookingsOfKeepsOrder | backend/src/controllers/booking.controller.js:51 | the query keeps store order: it distributes over concatenation |
| BookingController.GetAllBookings | backend/src/controllers/booking.controller.js:51-58 | 404 iff the requester has no booking, and then no data; otherwise 200 with a non-empty list holding each of the requester's bookings exactly as often as stored, and no other |
| BookingController.AllBookingsAgreeWithGetBooking | backend/src/controllers/booking.controller.js:12-58 | with unique ids, every booking the list hands a guest is one getBooking hands the same guest, unchanged |
| BookingController.CreateCheckoutSession | backend/src/controllers/booking.controller.js:283-342 | 404 iff the listing is absent; 400 iff a non-cancelled booking holds the same key; 500 when the phone or the session call fails; on success the metadata carries the key and the price nights * price, the charge is 100 * price, and no store is written |
| BookingController.BookingFromSession | backend/src/controllers/booking.controller.js:388-399 | the inserted booking is confirmed, not hidden, copies key, phone and price from the metadata, and stores the session id and payment intent |
| BookingController.StripeWebhook | backend/src/controllers/booking.controller.js:356-407 | a failed signature check gives 400 and no change; every verified event gives 200; the store changes only for a fresh, persisted completion, which appends exactly the booking built from the session |
| BookingController.WebhookCount | backend/src/controllers/booking.controller.js:375-399 | a delivery raises the count of non-cancelled bookings under its key from zero to one when it persists, and leaves it alone otherwise |
| BookingController.RedeliveryIdempotent | backend/src/controllers/booking.controller.js:375-386 | any number of deliveries of one completion event leave exactly one booking for its key once one delivery persisted, and none if none did |
| BookingController.ReplayChangesNothing | backend/src/controllers/booking.controller.js:375-386 | replaying a delivered completion event changes nothing |
| BookingController.WebhookKeepsIdsUnique | backend/src/controllers/booking.controller.js:388-399 | a delivery keeps document ids unique |
| BookingController.OverlapNotPrevented | backend/src/controllers/booking.controller.js:112-129 | completion events for two different keys on one listing with overlapping stays both become confirmed bookings, because the overlap guard is commented out |
| BookingController.SessionThenWebhook | backend/src/controllers/booking.controller.js:283-399 | a successful checkout session followed by any run of deliveries of its completion event, the first persisted, appends exactly one confirmed booking for the key, with the request's phone, nights times the listing price, and the event's session and payment ids, and leaves one active booking for the key |
| BookingController.RedeliverAfterPersist | backend/src/controllers/booking.controller.js:375-386 | once a completion event has been persisted, any further deliveries of it leave the store as it is |
| BookingController.CancelBooking | backend/src/controllers/booking.controller.js:192-218 | 404 when absent, 400 unless confirmed, 500 with no change when the refund fails; otherwise only that booking becomes cancelled |
| BookingController.CancelOnlyFromConfirmed | backend/src/controllers/booking.controller.js:198-210 | a cancellation changes at most a confirmed booking to cancelled, and changes the store iff it answers 200 |
| BookingController.SecondCancelRejected | backend/src/controllers/booking.controller.js:198-201 | cancelling a booking a second time answers 400 and changes nothing |
| BookingController.MarkBookingDeleted | backend/src/controllers/booking.controller.js:249-267 | 404 when absent; otherwise the booking's isDeleted becomes true and nothing else changes |
| BookingController.MarkDeletedIdempotent | backend/src/controllers/booking.controller.js:249-267 | marking the same booking again gives the same answer and store |
| ListingController.UploadedKeepsOrder | backend/src/controllers/listing.controller.js:124-132 | the uploaded URLs of a concatenation are those of each part, in order, so each image keeps its position |
| ListingController.TruthyCastsNonEmpty | backend/src/controllers/listing.controller.js:66-82 | a value that passes the presence check never casts to the empty string |
| ListingController.AddListing | backend/src/controllers/listing.controller.js:66-152 | 400 for a falsy required field, a NaN number, non-array amenities, a phone that is not ten digits, or no images; 201 iff every check passes, the upload succeeds and every cast succeeds; 500 iff the checks pass but the upload or a cast fails; on 201 exactly one listing is appended, with the host, a fresh id, the uploaded images, amenities defaulting to empty, and every other field (texts, numbers, phone, property type) the cast request value |
| ListingController.ZeroPriceRejected | backend/src/controllers/listing.controller.js:66-82 | a price of 0 fails the presence check even though the sign check only refuses negative prices |
| ListingController.NumericPriceCreatedPositive | backend/src/controllers/listing.controller.js:66-117 | a listing created from a numeric price has a strictly positive price |
| ListingController.MergeText | backend/src/controllers/listing.controller.js:243-248 | the cast fails iff an array is sent; an absent field keeps the old text; otherwise the field becomes the provided value's text, and is empty iff the old one was empty and nothing was sent or the empty string was sent |
| ListingController.MergeNumber | backend/src/controllers/listing.controller.js:249-253 | the cast fails iff an array or a non-numeric string is sent; an absent field keeps the old number; a provided one becomes its Number value |
| ListingController.MergePropertyType | backend/src/controllers/listing.controller.js:252 | an absent property type keeps the old one; a provided one is accepted iff its string cast is one of the four enumeration names, and then the type is the one so named |
| ListingController.MergeAmenities | backend/src/controllers/listing.controller.js:254 | the amenities cast never fails; absent amenities keep the old list, a provided array is taken as sent, and any other value keeps its text |
| ListingController.MergeTextFields | backend/src/controllers/listing.controller.js:243-248 | the merge fails iff some provided text field is an array; otherwise each of the six fields follows the text merge rule, including when it becomes empty |
| ListingController.MergeNumberFields | backend/src/controllers/listing.controller.js:249-253 | the merge fails iff some provided number field fails its cast; otherwise each of the four fields takes the cast value when one is sent and keeps the stored one otherwise |
| ListingController.MergeFields | backend/src/controllers/listing.controller.js:243-256 | the merge succeeds iff every text and number cast succeeds, a provided property type names a member, and no required text field becomes empty; then every field follows the `??` rule, including a provided property type and the amenities, and the listing keeps its id and host |
| ListingController.UpdateListing | backend/src/controllers/listing.controller.js:187-256 | 400 when the listing is absent or the images would exceed ten; 200 iff the listing exists, the images fit, any upload succeeds and the merge is accepted; on success only that listing changes, to exactly the merged listing, and new images give the de-duplicated union, at most ten |
| ListingController.UpdateStoresNegativePrice | backend/src/controllers/listing.controller.js:249 | an update can store a negative price, as the schema has no sign constraint |
| ListingController.UpdateKeepsExistingImagesFirst | backend/src/controllers/listing.controller.js:236-240 | an update keeps the existing images in front, in their order |
| ListingController.DeleteListing | backend/src/controllers/listing.controller.js:273-317 | a booking changes iff it is a confirmed booking on the listing with a payment intent whose refund and save both succeed, and then only to cancelled; a refunded booking whose save fails stays confirmed; the listing is removed (404 when absent) whatever the refunds did |
| ListingController.DeletedListingGone | backend/src/controllers/listing.controller.js:298 | with unique ids, no listing with the deleted id remains |
| ListingController.FilterOffered | backend/src/controllers/listing.controller.js:342-364 | the filter keeps each listing that matches location, price and availability as often as it is stored, and no other |
| ListingController.FilterOfferedKeepsOrder | backend/src/controllers/listing.controller.js:342-364 | the filter keeps store order: it distributes over concatenation |
| ListingController.SearchListings | backend/src/controllers/listing.controller.js:325-365 | each stored listing whose city, state or country contains the location ignoring case, whose price is within the inclusive bounds and that no confirmed booking overlaps is returned as often as it is stored; no other is returned |
| ListingController.BackToBackStaysOffered | backend/src/controllers/listing.controller.js:353-356 | a stay starting when a confirmed booking ends does not hide the listing |
| ListingController.OnlyConfirmedBookingsHide | backend/src/controllers/listing.controller.js:350-351 | pending and cancelled bookings never hide a listing |
| DashboardController.HostListings | backend/src/controllers/dashboard.controller.js:8 | the query returns each of the host's listings as often as it is stored, and no other |
| DashboardController.HostListingsKeepOrder | backend/src/controllers/dashboard.controller.js:8 | the query keeps store order: it distributes over concatenation |
| DashboardController.BookingsOn | backend/src/controllers/dashboard.controller.js:9-11 | the query returns each booking on one of the given listings as often as it is stored, and no other |
| DashboardController.BookingsOnKeepOrder | backend/src/controllers/dashboard.controller.js:9-11 | the query keeps store order: it distributes over concatenation |
| DashboardController.StatusCountsPartition | backend/src/controllers/dashboard.controller.js:15-22 | pending, confirmed and cancelled counts add up to the total |
| DashboardController.EarningsNonNegative | backend/src/controllers/dashboard.controller.js:16-18 | the confirmed earnings are non-negative when every price is |
| DashboardController.GetDashboardStats | backend/src/controllers/dashboard.controller.js:4-33 | total and active listings are both the number of the host's listings; total bookings is the number of bookings on them; earnings are the confirmed ones' total price; cancelled is the number of cancelled ones; confirmed plus cancelled is at most the total, and earnings are non-negative when prices are |
| DashboardController.OtherListingsIgnored | backend/src/controllers/dashboard.controller.js:9-11 | a booking on a listing the host does not own leaves the host's dashboard unchanged |
| AuthMiddleware.BearerToken | backend/src/middlewares/auth.middleware.js:94-99 | a token exists iff the header starts with "Bearer ", and it is the blank-free text right after the prefix, up to the next blank |
| AuthMiddleware.ProtectRoute | backend/src/middlewares/auth.middleware.js:89-125 | no token or an empty one gives 401; for a non-empty token, a throwing verification gives 500 and a falsy one 401; a decoded stored user is passed on without the password, the first stored user with that id; 404 iff the decoded user is unknown |
| AuthMiddleware.OtherSchemesRejected | backend/src/middlewares/auth.middleware.js:94-105 | a missing header or another scheme gives 401 |
| AuthMiddleware.BareBearerRejected | backend/src/middlewares/auth.middleware.js:98-105 | a bare "Bearer " yields the empty token and 401 |
| AuthMiddleware.IsListingOwner | backend/src/middlewares/auth.middleware.js:128-146 | 404 when the listing is absent; 403 when it exists and another user hosts it; passes on iff it exists and the requester hosts it |
| AuthMiddleware.IsBookingOwner | backend/src/middlewares/auth.middleware.js:149-176 | 404 when absent; 403 when another user made it; passes on iff the requester made the booking, attaching it |
| AuthMiddleware.BookingGuardAgreesWithGetBooking | backend/src/middlewares/auth.middleware.js:149-176 | the booking guard refuses with the same status as getBooking, and passes on exactly the booking getBooking returns |
| AuthMiddleware.ListingGuardPassesHostedListings | backend/src/middlewares/auth.middleware.js:128-146 | with unique ids, the listing guard passes on iff the listing is among the requester's listings on the dashboard |
| AuthController.EmailShapeMatchesPattern | backend/src/controllers/auth.controller.js:19-22 | the email check (no white space, one "@" after a non-empty local part, a "." neither first nor last in the domain) accepts exactly what the regular expression matches |
| AuthController.Signup | backend/src/controllers/auth.controller.js:11-36 | 400 with no change for an empty field, a password under 6 characters, a bad email or a taken email; 201 iff none applies, adding exactly one user whose stored password is the hash, with a fresh id |
| AuthController.SignupKeepsEmailsUnique | backend/src/controllers/auth.controller.js:24-25 | signup keeps registered emails unique |
| AuthController.Login | backend/src/controllers/auth.controller.js:58-66 | 200 iff a user with the email exists and the password matches the first such user's hash, and then the reply names that user; otherwise the identical 400 "Invalid credentials" for an unknown email and a wrong password |
| AuthController.SignupThenLogin | backend/src/controllers/auth.controller.js:11-66 | after a successful signup, logging in with the same email and password succeeds and names the new user, provided the comparison accepts a password against its own hash |
| MyBookingsPage.VisibleMembers | client/src/pages/MyBookingsPage.tsx:101-104 | a booking is visible iff it was fetched and is not a removed cancelled booking |
| MyBookingsPage.RemovedMembers | client/src/pages/MyBookingsPage.tsx:106-108 | a booking is in the removed list iff it was fetched, is cancelled and its id was removed |
| MyBookingsPage.PartitionOfFetched | client/src/pages/MyBookingsPage.tsx:101-108 | the visible and removed lists are disjoint and together hold exactly the fetched bookings, counts included |
| MyBookingsPage.VisibleKeepsOrder | client/src/pages/MyBookingsPage.tsx:101-104 | the visible list keeps the fetch order |
| MyBookingsPage.RemovedKeepsOrder | client/src/pages/MyBookingsPage.tsx:106-108 | the removed list keeps the fetch order |
| MyBookingsPage.ActiveAlwaysVisible | client/src/pages/MyBookingsPage.tsx:101-104 | a booking that is not cancelled is visible whatever the removed ids are |
| MyBookingsPage.DeletedIds | client/src/pages/MyBookingsPage.tsx:52-54 | the ids listed are exactly those of fetched bookings with isDeleted set |
| MyBookingsPage.DeletedIdsKeepOrder | client/src/pages/MyBookingsPage.tsx:52-54 | the flagged ids keep fetch order: the list distributes over concatenation |
| MyBookingsPage.AfterFetch | client/src/pages/MyBookingsPage.tsx:47-66 | a successful fetch replaces the bookings and rebuilds the removed ids from the isDeleted flags; a failed one keeps both and sets an error |
| MyBookingsPage.LocalDeleteIgnoresServer | client/src/pages/MyBookingsPage.tsx:69-98 | the server's answer to the soft delete does not change the removed list |
| MyBookingsPage.LocalDeleteHides | client/src/pages/MyBookingsPage.tsx:69-104 | after a local delete, the cancelled bookings with that id leave the visible list and every other booking stays as it was |
| MyBookingsPage.ReloadForgetsLocalDelete | client/src/pages/MyBookingsPage.tsx:37-108 | a locally removed cancelled booking whose server flag is still unset is hidden until the next successful fetch, which shows it again |
| MyBookingsPage.ServerMarkSurvivesReload | client/src/pages/MyBookingsPage.tsx:47-108 | once the server has flagged the guest's cancelled booking, the next fetch returns it flagged and the page keeps it hidden |
| BookingModal.HandleSubmit | client/src/components/BookingModal.tsx:154-186 | a request is sent iff all fields are filled, the phone is ten digits and the check-in is not at or after the check-out; the body is the form plus the listing id; the browser redirects iff the answer is ok with a url |
| BookingModal.InvalidDateNotBlocked | client/src/components/BookingModal.tsx:163-168 | an unparsable date passes the order check, so the request goes out |
| BookingModal.SentStayHasANight | client/src/components/BookingModal.tsx:163-168 | when both dates parse and the form is sent, the server charges at least one night |
| UpdateListingModal.TrimAll | client/src/components/UpdateListingModal.tsx:80 | each piece is trimmed, in place |
| UpdateListingModal.DropEmpty | client/src/components/UpdateListingModal.tsx:81 | the empty pieces go, and every other piece remains as often as it occurred |
| UpdateListingModal.DropEmptyKeepsOrder | client/src/components/UpdateListingModal.tsx:81 | dropping the empty pieces keeps the order of the others: it distributes over concatenation |
| UpdateListingModal.ParseAmenities | client/src/components/UpdateListingModal.tsx:78-81 | an amenity is parsed iff it is a non-empty trimmed piece of the split on ","; every parsed amenity is trimmed and comma-free, and there are no more than pieces |
| UpdateListingModal.ParseFirstPiece | client/src/components/UpdateListingModal.tsx:78-81 | the text is parsed piece by piece in order: a comma-free first piece contributes its trimmed text, unless empty, in front of what the rest parses to |
| UpdateListingModal.ParseLastPiece | client/src/components/UpdateListingModal.tsx:78-81 | comma-free text parses to its trimmed text, or to nothing when that is empty |
| UpdateListingModal.AmenitiesRoundTrip | client/src/components/UpdateListingModal.tsx:27-81 | showing amenities joined by ", " and parsing the text back gives the same list when each is non-empty, trimmed and comma-free |
| UpdateListingModal.AddPreview | client/src/components/UpdateListingModal.tsx:40-53 | no file, or ten previews already, leaves the list unchanged; otherwise the file is appended |
| ListingForm.ToggleAmenity | client/src/components/ListingForm.tsx:168-175 | ticking appends the amenity; unticking removes every copy of it and keeps every other amenity's count |
| ListingForm.ClickTwice | client/src/components/ListingForm.tsx:167-175 | ticking then unticking a box gives back the list |
| ListingForm.ClicksStayOffered | client/src/components/ListingForm.tsx:33-175 | clicks on the offered boxes only ever produce offered amenities, each at most once |
| ListingForm.AddImage | client/src/components/ListingForm.tsx:42-51 | no file, or ten images already, is silently ignored; otherwise the file is appended |

## Left out

- External services are parameters: the payment processor, the image store, password hashing and the token library. Their internals, the token cookie and `generateToken` are not modelled.
- Database, routing and rendering are not modelled: MongoDB I/O and `populate`, Express routing (`server.js`, `routes/*.js`), React rendering, localStorage, toasts and navigation.
- Persistence failures are modelled where the code swallows them: in `stripeWebhook`, and for the per-booking save after a refund in `deleteListing` (the `saved` parameter). Other failing reads and writes are not modelled; they reach the handler's catch block.
- ListingController.DeleteListing: a refunded booking whose save fails stays confirmed in the store, although the processor has refunded it and the handler answers 200. The model states this and does not flag the inconsistency further.
- MyBookingsPage.tsx:84: `handleLocalDelete` uses `token`, which is declared only inside the fetching effect (line 37). The server call therefore throws before it is sent, and the server's `isDeleted` flag is never raised from this page. The model treats the server outcome as irrelevant (MyBookingsPage.LocalDeleteIgnoresServer), and MyBookingsPage.ReloadForgetsLocalDelete shows the effect on the next fetch.
- MyBookingsPage.tsx:39: the request options lack a comma after `method: "GET"`, so the file as written does not parse. The model follows the evident intent, a GET with the bearer header.
- Concurrency is not modelled. Handlers are atomic steps, so concurrent webhook redeliveries can in fact both insert.
- Numbers are integers. Floating point, `parseFloat` versus `Number` on non-integer text, and the client's price-per-night display are not modelled. `ParseInteger` reads only optionally signed decimal digits; every other numeric text (decimals, exponents, hex, surrounding blanks) is treated as NaN.
- Dates are epoch milliseconds. `new Date(...)` parsing is the `parseDate` parameter, and the server's date casts of request fields are not modelled.
- Search location is a case-insensitive substring match on ASCII letters. Regular-expression metacharacters in the location and Unicode case folding are not modelled.
- String lengths count Unicode scalar values, not UTF-16 code units. This matters only for the password-length check on characters outside the basic plane.
- The booking schema's `required` validators are not modelled; the modelled Booking type always has every field.
- ObjectId casting errors are not modelled: ids are naturals, and an ill-formed id cannot occur.
- The commented-out handlers in booking.controller.js (createBooking, the old cancelBooking and deleteBooking) and the commented-out old middleware are not live code and are not modelled.
- The handlers getAllListings, getListing, getHostListings, logout, updateAvatar and checkAuth do plain reads or profile I/O and are not modelled.
- Pure UI components (cards, skeletons, carousels, static and status pages) are not modelled.
- ListingController.UpdateListing: answers 500 on a failed upload or cast. The source's catch block logs an undefined `err`, so what the client actually receives then depends on how the framework handles a rejected handler.
- DashboardController.GetDashboardStats: the failure path is not modelled, for the same undefined `err` in its catch block.
- BookingController.CreateCheckoutSession: the phone is an integer or absent. The source calls `phone.toString()` on whatever the body holds and sends it as metadata text.
- AuthController.Signup: fields are strings, with "" for absent. Non-string JSON values are not modelled.
- The date-overlap invariant some descriptions of the system state is not enforced by the live code, so it is not claimed. BookingController.OverlapNotPrevented exhibits the gap.
