/** The booking dialog's submit handler: the client-side gate in front of
    `createCheckoutSession`. Date strings are turned into instants by `parseDate`, which
    stands for `new Date(...)`; `None` is an invalid date. */
module BookingModal {
  import opened Options
  import opened Text
  import opened Models
  import BookingController

  datatype BookingForm = BookingForm(phone: string, checkInDate: string, checkOutDate: string)

  /** `{ ...form, listingId }`. */
  datatype CheckoutBody = CheckoutBody(phone: string, checkInDate: string, checkOutDate: string,
                                       listingId: Id)

  /** How the checkout request ended: it threw, or it answered with `res.ok` and a `url`
      (the empty string when the body has none). */
  datatype Response = Threw | Answered(ok: bool, url: string)

  /** Blocked before any request, or sent; `redirect` is where the browser goes next. */
  datatype SubmitOutcome =
    | Blocked(message: string)
    | Sent(body: CheckoutBody, redirect: Option<string>)

  /** `checkIn >= checkOut` on two `Date`s: false as soon as either is invalid. */
  predicate NotBefore(checkIn: Option<Millis>, checkOut: Option<Millis>) {
    checkIn.Some? && checkOut.Some? && checkIn.value >= checkOut.value
  }

  /** `handleSubmit`. */
  function HandleSubmit(form: BookingForm, listingId: Id, parseDate: string -> Option<Millis>,
                        response: Response): (r: SubmitOutcome)
    ensures r.Sent? <==>
      && form.phone != "" && form.checkInDate != "" && form.checkOutDate != ""
      && IsTenDigits(form.phone)
      && !NotBefore(parseDate(form.checkInDate), parseDate(form.checkOutDate))
    ensures r.Sent? ==>
      r.body == CheckoutBody(form.phone, form.checkInDate, form.checkOutDate, listingId)
    ensures r.Sent? ==>
      (r.redirect.Some? <==> response.Answered? && response.ok && response.url != "")
    ensures r.Sent? && r.redirect.Some? ==> r.redirect.value == response.url
  {
    if form.phone == "" || form.checkInDate == "" || form.checkOutDate == "" then
      Blocked("Please fill in all the fields.")
    else if !IsTenDigits(form.phone) then
      Blocked("Invalid phone number. It should be 10 digits.")
    else if NotBefore(parseDate(form.checkInDate), parseDate(form.checkOutDate)) then
      Blocked("Check-in date must be before check-out date.")
    else
      var body := CheckoutBody(form.phone, form.checkInDate, form.checkOutDate, listingId);
      match response
      case Threw => Sent(body, None)
      case Answered(ok, url) => Sent(body, if ok && url != "" then Some(url) else None)
  }

  /** An unparsable date slips through the order check: the comparison with an invalid
      date is false, so the request goes out. */
  lemma InvalidDateNotBlocked(form: BookingForm, listingId: Id,
                              parseDate: string -> Option<Millis>, response: Response)
    requires form.phone != "" && form.checkInDate != "" && form.checkOutDate != ""
    requires IsTenDigits(form.phone)
    requires parseDate(form.checkInDate).None? || parseDate(form.checkOutDate).None?
    ensures HandleSubmit(form, listingId, parseDate, response).Sent?
  {
  }

  /** When both dates are valid and the form is sent, the server charges at least one
      night for it. */
  lemma SentStayHasANight(form: BookingForm, listingId: Id,
                          parseDate: string -> Option<Millis>, response: Response)
    requires HandleSubmit(form, listingId, parseDate, response).Sent?
    requires parseDate(form.checkInDate).Some? && parseDate(form.checkOutDate).Some?
    ensures BookingController.Nights(parseDate(form.checkInDate).value,
                                     parseDate(form.checkOutDate).value) >= 1
  {
    var checkIn, checkOut := parseDate(form.checkInDate).value, parseDate(form.checkOutDate).value;
    var q := BookingController.Nights(checkIn, checkOut);
    assert q * BookingController.OneDay >= checkOut - checkIn > 0;
  }
}
