/** The bookings POST handler as a function of the stored bookings and
    services: input check (400), same-day conflict (409), rate lookup
    (500 when a line has no rate), schema validation (400), insert (201). */
module BookingRoute {
  import opened Common
  import opened ServiceModel
  import opened BookingModel
  import opened Pricing

  /** The JSON body. `services` is `None` when absent or not an array. */
  datatype BookingRequest = BookingRequest(
    client: Option<Id>,
    bookingDate: Option<Day>,
    services: Option<seq<LineItem>>)

  /** The first check: client and date truthy, services a non-empty array. */
  predicate InputPresent(req: BookingRequest)
  {
    req.client.Some? && req.bookingDate.Some? && req.services.Some? && |req.services.value| > 0
  }

  /** `Booking.findOne` over [startOfDay(d), endOfDay(d)] with status not
      `Cancelled`: some stored booking falls on that day and is not cancelled. */
  predicate HasConflict(bookings: seq<Booking>, day: Day)
  {
    exists k :: 0 <= k < |bookings| && bookings[k].bookingDate == day && bookings[k].status != Cancelled
  }

  /** At most one booking that is not cancelled on any one day. */
  predicate OnePerDay(bookings: seq<Booking>)
  {
    forall k, l :: 0 <= k < l < |bookings| && bookings[k].bookingDate == bookings[l].bookingDate ==>
      bookings[k].status == Cancelled || bookings[l].status == Cancelled
  }

  /** Each booked line refers to a stored service. */
  predicate ReferencesResolve(b: Booking, services: seq<Service>)
  {
    forall j :: 0 <= j < |b.services| ==>
      b.services[j].serviceId.Some? && ServiceExists(services, b.services[j].serviceId.value)
  }

  /** What every stored booking satisfies. */
  predicate BookingsInvariant(bookings: seq<Booking>, services: seq<Service>)
  {
    forall k :: 0 <= k < |bookings| ==>
      ValidBooking(bookings[k]) && ReferencesResolve(bookings[k], services)
  }

  /** The rates in effect for a request: the map built from the services it names. */
  function RequestRates(services: seq<Service>, items: seq<LineItem>): map<Id, real>
  {
    RateMap(services, WantedIds(items))
  }

  datatype BookingReply = BookingReply(status: nat, bookings: seq<Booking>)

  /** The handler. Every failure leaves the bookings as they were; success
      appends exactly one booking. */
  function CreateBookingStep(bookings: seq<Booking>, services: seq<Service>, req: BookingRequest): (r: BookingReply)
    ensures r.status in {StatusCreated, StatusBadRequest, StatusConflict, StatusServerError}
    ensures r.status != StatusCreated ==> r.bookings == bookings
    ensures r.status == StatusCreated ==>
              |r.bookings| == |bookings| + 1 && r.bookings[..|bookings|] == bookings
  {
    if !InputPresent(req) then BookingReply(StatusBadRequest, bookings)
    else if HasConflict(bookings, req.bookingDate.value) then BookingReply(StatusConflict, bookings)
    else
      var items := req.services.value;
      match Price(items, RequestRates(services, items))
      case Unpriced(_) => BookingReply(StatusServerError, bookings)
      case Priced(total) =>
        var b := Booking(req.client.value, req.bookingDate.value, items, total, Scheduled);
        if ValidBooking(b) then BookingReply(StatusCreated, bookings + [b])
        else BookingReply(StatusBadRequest, bookings)
  }

  /** The first check fails: 400, whatever the store holds. */
  lemma CreateRejectsMissingInput(bookings: seq<Booking>, services: seq<Service>, req: BookingRequest)
    requires !InputPresent(req)
    ensures CreateBookingStep(bookings, services, req) == BookingReply(StatusBadRequest, bookings)
  {
  }

  /** A booking on that day that is not cancelled: 409, before any rate is
      looked up (the services do not matter). */
  lemma CreateRejectsConflict(bookings: seq<Booking>, services: seq<Service>, req: BookingRequest, k: nat)
    requires InputPresent(req)
    requires k < |bookings| && bookings[k].bookingDate == req.bookingDate.value
    requires bookings[k].status != Cancelled
    ensures CreateBookingStep(bookings, services, req) == BookingReply(StatusConflict, bookings)
  {
  }

  /** Cancelled bookings are invisible to the handler: adding one never
      changes its answer. */
  lemma CancelledNeverConflicts(bookings: seq<Booking>, c: Booking, services: seq<Service>, req: BookingRequest)
    requires c.status == Cancelled
    ensures CreateBookingStep(bookings + [c], services, req).status ==
            CreateBookingStep(bookings, services, req).status
  {
    if InputPresent(req) {
      var d := req.bookingDate.value;
      if HasConflict(bookings + [c], d) {
        var k :| 0 <= k < |bookings + [c]| && (bookings + [c])[k].bookingDate == d &&
                 (bookings + [c])[k].status != Cancelled;
        assert k < |bookings| && bookings[k] == (bookings + [c])[k];
      }
      if HasConflict(bookings, d) {
        var k :| 0 <= k < |bookings| && bookings[k].bookingDate == d && bookings[k].status != Cancelled;
        assert (bookings + [c])[k] == bookings[k];
      }
    }
  }

  /** Some line's service is unknown or has rate 0: the thrown error gives
      500 and nothing is stored. */
  lemma CreateFailsOnMissingRate(bookings: seq<Booking>, services: seq<Service>, req: BookingRequest, k: nat)
    requires InputPresent(req) && !HasConflict(bookings, req.bookingDate.value)
    requires k < |req.services.value|
    requires !HasRate(RequestRates(services, req.services.value), req.services.value[k].serviceId)
    ensures CreateBookingStep(bookings, services, req) == BookingReply(StatusServerError, bookings)
  {
    PriceFails(req.services.value, RequestRates(services, req.services.value));
  }

  /** Every line priced: the answer is 201 exactly when every line has at
      least half an hour, and then the one new booking is `Scheduled`, on
      the requested day, for the requested client, with the line items as
      given and the total Σ rate × hours. Otherwise the schema rejects the
      document: 400 and nothing stored. */
  lemma CreatePricedOutcome(bookings: seq<Booking>, services: seq<Service>, req: BookingRequest)
    requires InputPresent(req) && !HasConflict(bookings, req.bookingDate.value)
    requires AllPriced(req.services.value, RequestRates(services, req.services.value))
    ensures var items := req.services.value;
            var r := CreateBookingStep(bookings, services, req);
            && (r.status == StatusCreated <==> forall j :: 0 <= j < |items| ==> ValidLineItem(items[j]))
            && (r.status != StatusCreated ==> r == BookingReply(StatusBadRequest, bookings))
            && (r.status == StatusCreated ==>
                  AllHours(items) &&
                  r.bookings == bookings + [Booking(req.client.value, req.bookingDate.value, items,
                     Some(LineSum(items, RequestRates(services, items))), Scheduled)])
  {
    var items := req.services.value;
    var rates := RequestRates(services, items);
    if AllHours(items) {
      PriceTotal(items, rates);
    } else {
      var k :| 0 <= k < |items| && items[k].numberOfHours.None?;
      PriceNaN(items, rates, k);
      assert !ValidLineItem(items[k]);
    }
  }

  /** The answer is 201 exactly when the input is present, the day is free,
      every line is priced and every line passes the line-item schema. */
  lemma CreateSucceedsIff(bookings: seq<Booking>, services: seq<Service>, req: BookingRequest)
    ensures CreateBookingStep(bookings, services, req).status == StatusCreated <==>
            && InputPresent(req)
            && !HasConflict(bookings, req.bookingDate.value)
            && AllPriced(req.services.value, RequestRates(services, req.services.value))
            && forall j :: 0 <= j < |req.services.value| ==> ValidLineItem(req.services.value[j])
  {
    if InputPresent(req) && !HasConflict(bookings, req.bookingDate.value) {
      var items := req.services.value;
      PriceFails(items, RequestRates(services, items));
      if AllPriced(items, RequestRates(services, items)) {
        CreatePricedOutcome(bookings, services, req);
      }
    }
  }

  /** A rate of a priced line is the rate of the stored service the line
      names (identities being distinct). */
  lemma RequestRateIsStoredRate(services: seq<Service>, items: seq<LineItem>, j: nat, k: nat)
    requires IdsDistinct(services)
    requires j < |items| && k < |services| && items[j].serviceId == Some(services[k].id)
    ensures RequestRates(services, items)[services[k].id] == services[k].hourlyRate
  {
    assert services[k].id in WantedIds(items);
  }

  /** The worked example: 2 h of a service at 100 and 1 h of one at 50
      cost 250. */
  lemma CreateExample(d: Day)
    ensures var services := [Service(1, Plumbing, 100.0), Service(2, Electrical, 50.0)];
            var items := [LineItem(Some(1), Some(2.0)), LineItem(Some(2), Some(1.0))];
            CreateBookingStep([], services, BookingRequest(Some(7), Some(d), Some(items))) ==
            BookingReply(StatusCreated, [Booking(7, d, items, Some(250.0), Scheduled)])
  {
    var services := [Service(1, Plumbing, 100.0), Service(2, Electrical, 50.0)];
    var items := [LineItem(Some(1), Some(2.0)), LineItem(Some(2), Some(1.0))];
    var req := BookingRequest(Some(7), Some(d), Some(items));
    var rates := RequestRates(services, items);
    RequestRateIsStoredRate(services, items, 0, 0);
    RequestRateIsStoredRate(services, items, 1, 1);
    assert AllPriced(items, rates);
    CreatePricedOutcome([], services, req);
    assert items[1..][1..] == [];
    assert LineSum(items, rates) == 250.0;
  }

  /** After a booking is created on day d, a second request for day d,
      whatever services it asks for, is refused with 409. */
  lemma SecondBookingSameDayConflicts(bookings: seq<Booking>, services: seq<Service>, req1: BookingRequest, req2: BookingRequest)
    requires CreateBookingStep(bookings, services, req1).status == StatusCreated
    requires InputPresent(req2) && req2.bookingDate == req1.bookingDate
    ensures var after := CreateBookingStep(bookings, services, req1).bookings;
            CreateBookingStep(after, services, req2) == BookingReply(StatusConflict, after)
  {
    var after := CreateBookingStep(bookings, services, req1).bookings;
    assert after[|bookings|].bookingDate == req1.bookingDate.value;
    assert after[|bookings|].status == Scheduled;
  }

  /** The handler keeps "one booking per day that is not cancelled" (as
      long as requests are handled one at a time). */
  lemma CreateKeepsOnePerDay(bookings: seq<Booking>, services: seq<Service>, req: BookingRequest)
    requires OnePerDay(bookings)
    ensures OnePerDay(CreateBookingStep(bookings, services, req).bookings)
  {
    var r := CreateBookingStep(bookings, services, req);
    if r.status == StatusCreated {
      var n := |bookings|;
      forall k, l | 0 <= k < l < |r.bookings| && r.bookings[k].bookingDate == r.bookings[l].bookingDate
        ensures r.bookings[k].status == Cancelled || r.bookings[l].status == Cancelled
      {
        if l == n {
          assert r.bookings[k] == bookings[k];
          assert !(bookings[k].bookingDate == req.bookingDate.value && bookings[k].status != Cancelled);
        } else {
          assert r.bookings[k] == bookings[k] && r.bookings[l] == bookings[l];
        }
      }
    }
  }

  /** The handler keeps every stored booking valid and resolvable: the new
      booking passed the schema, and each of its lines was priced, so it
      names a stored service. */
  lemma CreateKeepsInvariant(bookings: seq<Booking>, services: seq<Service>, req: BookingRequest)
    requires BookingsInvariant(bookings, services)
    ensures BookingsInvariant(CreateBookingStep(bookings, services, req).bookings, services)
  {
    var r := CreateBookingStep(bookings, services, req);
    if r.status == StatusCreated {
      CreateSucceedsIff(bookings, services, req);
      var items := req.services.value;
      var rates := RequestRates(services, items);
      var b := r.bookings[|bookings|];
      assert b.services == items;
      forall j | 0 <= j < |items|
        ensures items[j].serviceId.Some? && ServiceExists(services, items[j].serviceId.value)
      {
        assert HasRate(rates, items[j].serviceId);
      }
      assert ReferencesResolve(b, services);
      forall k | 0 <= k < |r.bookings|
        ensures ValidBooking(r.bookings[k]) && ReferencesResolve(r.bookings[k], services)
      {
        if k < |bookings| {
          assert r.bookings[k] == bookings[k];
        }
      }
    }
  }

  /** Growing the services (without changing identities) keeps every
      booking's references resolvable: a later upsert never breaks a booking. */
  lemma InvariantUnderServiceChange(bookings: seq<Booking>, services: seq<Service>, services': seq<Service>)
    requires BookingsInvariant(bookings, services)
    requires |services| <= |services'|
    requires forall k :: 0 <= k < |services| ==> services'[k].id == services[k].id
    ensures BookingsInvariant(bookings, services')
  {
    forall k, j | 0 <= k < |bookings| && 0 <= j < |bookings[k].services|
      ensures ServiceExists(services', bookings[k].services[j].serviceId.value)
    {
      assert ReferencesResolve(bookings[k], services);
      var id := bookings[k].services[j].serviceId.value;
      var m :| 0 <= m < |services| && services[m].id == id;
      assert services'[m].id == id;
    }
  }
}
