/** The booking schema: line items with a service reference and a number
    of hours (at least half an hour), a non-empty list of them, and the
    required client, date and total, with a status from a fixed list. */
module BookingModel {
  import opened Common

  datatype Status = Scheduled | Completed | Cancelled

  function StatusName(s: Status): string
  {
    match s
    case Scheduled => "Scheduled"
    case Completed => "Completed"
    case Cancelled => "Cancelled"
  }

  /** The `status` path: absent takes the default `Scheduled`; a present
      value is accepted only if it is one of the enum spellings. */
  function StatusField(raw: Option<string>): (r: Option<Status>)
    ensures raw.None? ==> r == Some(Scheduled)
    ensures raw.Some? && r.Some? ==> StatusName(r.value) == raw.value
    ensures raw.Some? && r.None? ==> forall s: Status :: StatusName(s) != raw.value
  {
    if raw.None? then Some(Scheduled)
    else if raw.value == "Scheduled" then Some(Scheduled)
    else if raw.value == "Completed" then Some(Completed)
    else if raw.value == "Cancelled" then Some(Cancelled)
    else None
  }

  /** One booked service, as sent in the request and embedded in the
      booking: either field may be missing from the JSON body. */
  datatype LineItem = LineItem(serviceId: Option<Id>, numberOfHours: Option<real>)

  /** A booking document. `totalAmount` is `None` when the computed total
      is JavaScript's NaN (the product of a rate and a missing number of
      hours), which the Number cast rejects. */
  datatype Booking = Booking(
    client: Id,
    bookingDate: Day,
    services: seq<LineItem>,
    totalAmount: Option<real>,
    status: Status)

  const MinHours: real := 0.5

  /** `BookedServiceSchema`: both fields required, at least half an hour. */
  predicate ValidLineItem(item: LineItem)
  {
    item.serviceId.Some? && item.numberOfHours.Some? && item.numberOfHours.value >= MinHours
  }

  /** `BookingSchema`'s save-time checks. `client` and `bookingDate` are
      required but are values of the datatype here; `status` is one of the
      enum values by construction. */
  predicate ValidBooking(b: Booking)
  {
    && |b.services| > 0
    && (forall j :: 0 <= j < |b.services| ==> ValidLineItem(b.services[j]))
    && b.totalAmount.Some?
  }
}
