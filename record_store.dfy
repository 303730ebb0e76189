/** The record store the three handlers share: the customers, services
    and bookings collections and the identity generator, with one method
    per POST handler. Each method answers with the HTTP status code and
    writes only on success. Requests are handled one at a time. */
module RecordStore {
  import opened Common
  import opened Text
  import opened CustomerModel
  import opened ServiceModel
  import opened BookingModel
  import opened Pricing
  import opened BookingRoute
  import opened ServiceRoute
  import opened CustomerRoute

  /** The constraints over the three collections together. */
  predicate StoreInvariant(customers: seq<Customer>, services: seq<Service>,
                           bookings: seq<Booking>, nextId: nat)
  {
    && CustomersInvariant(customers, nextId)
    && ServicesInvariant(services, nextId)
    && BookingsInvariant(bookings, services)
  }

  class Store {
    var customers: seq<Customer>
    var services: seq<Service>
    var bookings: seq<Booking>
    /** The identity the next inserted customer or service receives. */
    var nextId: nat

    /** What the schemas, the unique index and the handlers keep. */
    ghost predicate Valid()
      reads this
    {
      StoreInvariant(customers, services, bookings, nextId)
    }

    constructor ()
      ensures Valid()
      ensures customers == [] && services == [] && bookings == [] && nextId == 0
    {
      customers, services, bookings, nextId := [], [], [], 0;
    }

    /** POST /api/bookings. */
    method CreateBooking(req: BookingRequest) returns (status: nat)
      requires Valid()
      modifies this`bookings
      ensures Valid()
      ensures BookingReply(status, bookings) == CreateBookingStep(old(bookings), services, req)
      ensures OnePerDay(old(bookings)) ==> OnePerDay(bookings)
    {
      CreateKeepsInvariant(bookings, services, req);
      if OnePerDay(bookings) {
        CreateKeepsOnePerDay(bookings, services, req);
      }
      if req.client.None? || req.bookingDate.None? || req.services.None? || |req.services.value| == 0 {
        return StatusBadRequest;
      }
      var date := req.bookingDate.value;
      var items := req.services.value;
      if HasConflict(bookings, date) {
        return StatusConflict;
      }
      var rateMap := RateMap(services, WantedIds(items));
      var pricing := ComputeTotal(items, rateMap);
      if pricing.Unpriced? {
        return StatusServerError;
      }
      var newBooking := Booking(req.client.value, date, items, pricing.total, Scheduled);
      if !ValidBooking(newBooking) {
        return StatusBadRequest;
      }
      bookings := bookings + [newBooking];
      return StatusCreated;
    }

    /** POST /api/services. The new collection is decided first and
        written once, at the end. */
    method UpsertService(req: ServiceRequest) returns (status: nat)
      requires Valid()
      modifies this`services, this`nextId
      ensures Valid()
      ensures ServiceReply(status, services, nextId) == UpsertStep(old(services), old(nextId), req)
      ensures NamesDistinct(old(services)) ==> NamesDistinct(services)
    {
      var written, next := services, nextId;
      if Falsy(req.serviceName) || req.hourlyRate.Absent? {
        status := StatusBadRequest;
      } else if req.hourlyRate.NotNumber? || req.hourlyRate.value < 0.0 {
        status := StatusBadRequest;
      } else {
        var serviceName := Trim(req.serviceName.value);
        var hourlyRate := req.hourlyRate.value;
        var existing := FindByName(services, serviceName);
        if existing.Some? {
          var k := existing.value;
          written := services[k := services[k].(hourlyRate := hourlyRate)];
          status := StatusOk;
        } else if !ServiceDocumentValid(serviceName, hourlyRate) {
          status := StatusBadRequest;
        } else {
          written := services + [Service(nextId, ParseName(serviceName).value, hourlyRate)];
          next := nextId + 1;
          status := StatusCreated;
        }
      }
      assert ServiceReply(status, written, next) == UpsertStep(services, nextId, req);
      UpsertKeepsInvariant(services, nextId, req);
      if NamesDistinct(services) {
        UpsertKeepsNamesDistinct(services, nextId, req);
      }
      InvariantUnderServiceChange(bookings, services, written);
      CustomersInvariantMonotone(customers, nextId, next);
      services, nextId := written, next;
    }

    /** POST /api/customers: decide the reply, then write it. */
    method RegisterCustomer(req: CustomerRequest) returns (status: nat)
      requires Valid()
      modifies this`customers, this`nextId
      ensures Valid()
      ensures CustomerReply(status, customers, nextId) == RegisterStep(old(customers), old(nextId), req)
    {
      var written, next;
      status, written, next := Register(customers, nextId, req);
      assert StoreInvariant(written, services, bookings, next) by {
        RegisterKeepsInvariant(customers, nextId, req);
        ServicesInvariantMonotone(services, nextId, next);
      }
      customers, nextId := written, next;
    }
  }
}
