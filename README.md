# Service-booking back end: a Dafny model

This project models the three POST handlers of a small Next.js back end for a
trades business (plumbing, electrical work, masonry, carpentry), together with
the Mongoose schemas they save into:

- `POST /api/customers` registers a customer. It checks that the five fields
  are present. The schema then trims every field, lower-cases the email,
  checks the email against `^\S+@\S+\.\S+$`, and keeps emails unique.
- `POST /api/services` upserts a service by name. If a record with that name
  exists, its hourly rate is updated and the answer is 200. Otherwise a record
  is created (201), and the schema makes the name one of five listed trades.
- `POST /api/bookings` creates a booking. The first check is for the input.
  A booking on the same day that is not cancelled is refused with 409. The
  total is priced as Σ rate × hours over the line items, using the stored
  rates, and fails with 500 on a line that has no rate. The document is then
  saved, and the booking schema's validators can still reject it with 400.

The database is one in-memory store, the class `RecordStore.Store`. It holds
the sequences of customers, services and bookings, plus the counter that
issues identities. Each handler is a method of that class:

- it returns the HTTP status code;
- it writes only when it succeeds;
- it keeps the store invariant `Valid()`.

Each handler is also given as a pure function of the stored collections:
`CustomerRoute.RegisterStep`, `ServiceRoute.UpsertStep` and
`BookingRoute.CreateBookingStep`. Each method's postcondition ties its reply
and its new state to that function. The properties are proved as lemmas
about the functions: which status comes back in which case, and what is
stored afterwards.

How the model represents the source:

- **Missing and falsy values.**
  - A JavaScript value that may be missing or falsy is an `Option`. A falsy
    string is `None` or `Some("")`.
  - The NaN total that comes from a missing `numberOfHours` is `None`.
  - Rates and hours are `real`. Dates are day numbers (`Day`), because the
    conflict query covers one calendar day.
  - Identities are natural numbers, issued by one counter.
- **Strings.**
  - `trim` removes JavaScript's white-space and line-terminator characters.
  - `toLowerCase` is modelled for the ASCII letters.
  - Mongoose applies the `trim` setter to query filters as well. So the
    upsert's `findOne({ serviceName })` looks up the trimmed name, and the
    model does the same.
- **Order of the checks.**
  - The customer handler runs the validators (400) before the unique index
    on email. So an invalid document whose email is already taken gets 400.
  - A duplicate email gets 500, because the duplicate-key error is not a
    `ValidationError`.
  - In the booking handler, a line whose service is unknown, or whose rate is
    0 (falsy), throws a plain `Error` and gives 500. The minimum of half an
    hour is checked only at save time, after pricing, and gives 400.

The model follows the code as written:

- an unknown service in a booking gives 500, not 400;
- a duplicate email gives 500;
- the schema does not make service names unique; only the upsert route keeps
  one record per name (`ServiceModel.SchemaAllowsDuplicateNames`,
  `ServiceRoute.UpsertKeepsNamesDistinct`).

## Model

| member | source | states |
|---|---|---|
| Text.IsSpace | src/app/models/customer.model.ts:20 | The characters `trim` removes and `\s` matches: JavaScript's white space (tab, vertical tab, form feed, space, no-break space, the Unicode space separators, the byte-order mark) and line terminators (line feed, carriage return, line and paragraph separators). |
| Text.Trim | src/app/models/customer.model.ts:20 | The trimmed string neither starts nor ends with white space, and it is empty exactly when the input is all white space. |
| Text.Lower | src/app/models/customer.model.ts:42 | The lower-cased string has the same length and no upper-case letter, keeps white space where it was, and leaves a string that is already lower case unchanged. |
| Text.TrimInfix | src/app/models/customer.model.ts:20 | What `trim` keeps is an infix of the input, with only white space before and after it. |
| Text.TrimFixedPoint | src/app/models/services.model.ts:24 | A string is unchanged by `trim` exactly when it neither starts nor ends with white space. |
| Text.LowerKeepsTrimmed | src/app/models/customer.model.ts:41-42 | Lower-casing a string that neither starts nor ends with white space keeps it so. |
| Text.TrimIdempotent | src/app/models/customer.model.ts:41 | Trimming twice gives the same result as trimming once. |
| Text.LowerIdempotent | src/app/models/customer.model.ts:42 | Lower-casing twice gives the same result as lower-casing once. |
| Text.TrimLowerCommute | src/app/models/customer.model.ts:41-42 | Trimming and lower-casing commute, so the order of the email's two setters does not matter. |
| CustomerModel.EmailPattern | src/app/models/customer.model.ts:43 | The `match` validator: no white space, an `@` after at least one character, and a later `.` with at least one character on each side. EmailOfParts and PartsOfEmail prove this is exactly the language of `^\S+@\S+\.\S+$`. |
| CustomerModel.EmailOfParts | src/app/models/customer.model.ts:43 | Three non-empty parts without white space, joined as a@b.c, match `^\S+@\S+\.\S+$`. |
| CustomerModel.PartsOfEmail | src/app/models/customer.model.ts:43 | Conversely, every string that matches splits into such parts a, b, c with s == a@b.c. |
| CustomerModel.ValidCustomer | src/app/models/customer.model.ts:15-44 | A stored customer: every field present and trimmed, and the email lower case and matching the pattern. |
| CustomerModel.CustomersInvariant | src/app/models/customer.model.ts:15-44 | Every stored customer is valid, its identity is below the counter, and identities and emails are pairwise distinct (the unique index). |
| CustomerModel.NormalizeEmail | src/app/models/customer.model.ts:41-42 | The stored email is no longer than the input, is trimmed and lower case, and is empty exactly when the input is all white space. |
| CustomerModel.NormalFormFixed | src/app/models/customer.model.ts:41-42 | A trimmed, lower-case email is its own normal form. |
| CustomerModel.NormalizeIdempotent | src/app/models/customer.model.ts:41-42 | Normalizing an already normalized email changes nothing. |
| ServiceModel.NameString | src/app/models/services.model.ts:21 | The spelling of each of the five trades in the enum list, "Carpentry Works" with its space. |
| ServiceModel.ParseName | src/app/models/services.model.ts:20-23 | The enum check accepts a string exactly when it spells one of the five trades, and then returns that trade. |
| ServiceModel.ParseNameString | src/app/models/services.model.ts:5 | Every trade's spelling is accepted, as that same trade. |
| ServiceModel.NameStringTrimmed | src/app/models/services.model.ts:21-24 | Every trade's spelling is non-empty and unchanged by the `trim` setter. |
| ServiceModel.ServiceDocumentValid | src/app/models/services.model.ts:17-30 | A new service document passes the schema when its trimmed name is non-empty and one of the listed trades, and its rate is at least 0. |
| ServiceModel.ServicesInvariant | src/app/models/services.model.ts:15-30 | Every stored service has a rate of at least 0 and an identity below the counter, and identities are pairwise distinct. |
| ServiceModel.SchemaAllowsDuplicateNames | src/app/models/services.model.ts:15-30 | The schema does not forbid two records with the same name. A collection of two Plumbing records with distinct identities satisfies every collection constraint. |
| BookingModel.StatusName | src/app/models/booking.model.ts:54 | The spelling of each of the three statuses in the enum list. |
| BookingModel.StatusField | src/app/models/booking.model.ts:52-56 | When absent, the status defaults to Scheduled. A present value is accepted exactly when it spells one of the three statuses. |
| BookingModel.ValidLineItem | src/app/models/booking.model.ts:20-31 | A line item passes its schema when the service reference and the number of hours are both present and the hours are at least 0.5. |
| BookingModel.ValidBooking | src/app/models/booking.model.ts:33-56 | A booking passes its schema when it has at least one line, every line is valid, and the total is a number (not NaN). |
| Pricing.WantedIds | src/app/api/bookings/route.ts:35-37 | The set of service identities the line items name, used as the `$in` filter. |
| Pricing.RateMap | src/app/api/bookings/route.ts:35-39 | The rate map's keys are exactly the requested identities that some stored service has. With distinct identities, each key maps to its service's hourly rate. |
| Pricing.LineAmount | src/app/api/bookings/route.ts:46 | One line's `rate * numberOfHours`; a missing number of hours gives NaN. |
| Pricing.AddAmount | src/app/api/bookings/route.ts:46 | The `+=` on the running total, NaN absorbing. |
| Pricing.HasRate | src/app/api/bookings/route.ts:42-43 | A line is priced when its service identity is present, in the rate map, and its rate is not 0 (the falsy test). |
| Pricing.Price | src/app/api/bookings/route.ts:41-47 | The pricing loop, item by item: the running total (NaN absorbing), or the first line without a rate. PriceTotal, PriceNaN, PriceFirstUnpriced and PriceFails state its outcomes. |
| Pricing.ComputeTotal | src/app/api/bookings/route.ts:34-47 | The loop returns the pricing function's outcome: the running total, or the first line that has no rate. |
| Pricing.PriceTotal | src/app/api/bookings/route.ts:41-47 | With every line priced and every number of hours present, the loop's total is Σ rate × hours, one term per line. |
| Pricing.PriceNaN | src/app/api/bookings/route.ts:46 | With every line priced but some number of hours missing, the total is NaN. |
| Pricing.PriceFirstUnpriced | src/app/api/bookings/route.ts:41-45 | The loop throws at the first line that has no rate, naming that line's service identity. |
| Pricing.PriceFails | src/app/api/bookings/route.ts:41-45 | The loop throws exactly when some line's service is unknown or has rate 0. |
| BookingRoute.InputPresent | src/app/api/bookings/route.ts:14 | The first check: client and date present, and services a non-empty array. |
| BookingRoute.HasConflict | src/app/api/bookings/route.ts:25-30 | Some stored booking falls on the requested day and is not cancelled. |
| BookingRoute.RequestRates | src/app/api/bookings/route.ts:35-39 | The rate map for a request: the stored services whose identity the request names, each mapped to its hourly rate. |
| BookingRoute.OnePerDay | src/app/api/bookings/route.ts:25-32 | No two stored bookings that are not cancelled fall on the same day. |
| BookingRoute.BookingsInvariant | src/app/models/booking.model.ts:33-56 | Every stored booking passes the booking schema and each of its lines names a stored service. |
| BookingRoute.CreateBookingStep | src/app/api/bookings/route.ts:8-68 | The answer is 201, 400, 409 or 500. Every answer other than 201 leaves the bookings unchanged, and 201 appends exactly one booking. |
| BookingRoute.CreateRejectsMissingInput | src/app/api/bookings/route.ts:14-16 | A missing client, date or service list, or an empty service list, gives 400 with no write. |
| BookingRoute.CreateRejectsConflict | src/app/api/bookings/route.ts:21-32 | A stored booking on the same day that is not cancelled gives 409 with no write, whatever the services. |
| BookingRoute.CancelledNeverConflicts | src/app/api/bookings/route.ts:25-28 | Adding a cancelled booking to the store never changes the handler's answer. |
| BookingRoute.CreateFailsOnMissingRate | src/app/api/bookings/route.ts:41-45 | A line whose service is unknown or has rate 0 gives 500 with no write. |
| BookingRoute.CreatePricedOutcome | src/app/api/bookings/route.ts:46-59 | With every line priced, the answer is 201 exactly when every line has at least half an hour. The one new booking is Scheduled, for the requested client and day, with the line items as given and the total Σ rate × hours. Otherwise the answer is 400 with no write. |
| BookingRoute.CreateSucceedsIff | src/app/api/bookings/route.ts:14-59 | The answer is 201 exactly when the input is present, the day is free, every line is priced and every line passes the line-item schema. |
| BookingRoute.RequestRateIsStoredRate | src/app/api/bookings/route.ts:37-42 | The rate the loop reads for a line is the stored service's hourly rate. |
| BookingRoute.CreateExample | src/app/api/bookings/route.ts:34-59 | 2 h at 100 plus 1 h at 50 on a free day is stored as one Scheduled booking with total 250. |
| BookingRoute.SecondBookingSameDayConflicts | src/app/api/bookings/route.ts:25-32 | After a booking is created for a day, any second request for that day gets 409. |
| BookingRoute.CreateKeepsOnePerDay | src/app/api/bookings/route.ts:25-32 | If every day had at most one booking that is not cancelled, that still holds after the handler. |
| BookingRoute.CreateKeepsInvariant | src/app/api/bookings/route.ts:49-57 | Every stored booking still passes the schema and names only stored services. |
| BookingRoute.InvariantUnderServiceChange | src/app/api/services/route.ts:26-41 | Services are never removed, only updated or added, so stored bookings keep resolving. |
| ServiceRoute.InputValid | src/app/api/services/route.ts:10-22 | The two input checks pass: the name is present and non-empty, and the rate is a number of at least 0. |
| ServiceRoute.FindByName | src/app/api/services/route.ts:26 | The lookup returns the first stored service with that name, or none when no service has it. |
| ServiceRoute.UpsertStep | src/app/api/services/route.ts:5-51 | The answer is 200, 201 or 400. 400 writes nothing. 200 keeps the count and the counter. 201 appends one record and advances the counter. |
| ServiceRoute.UpsertRejectsBadInput | src/app/api/services/route.ts:10-22 | A missing name, a missing rate, a rate that is not a number, or a negative rate gives 400 with no write. |
| ServiceRoute.UpsertUpdatesInPlace | src/app/api/services/route.ts:26-32 | When a service with the trimmed name exists, the answer is 200. Only the first such record changes, and only its rate. |
| ServiceRoute.UpsertCreates | src/app/api/services/route.ts:34-41 | When no service has the name, a listed name is appended with a fresh identity and the rate (201). Any other name fails the enum check (400). |
| ServiceRoute.UpsertLeavesOtherNames | src/app/api/services/route.ts:26-41 | Records with other names are untouched. |
| ServiceRoute.UpsertSetsRate | src/app/api/services/route.ts:26-41 | After a 200 or 201, the record found under that name carries the new rate. |
| ServiceRoute.UpsertConverges | src/app/api/services/route.ts:26-41 | A second upsert of the same name answers 200, adds no record, and leaves the second rate. |
| ServiceRoute.UpsertKeepsInvariant | src/app/api/services/route.ts:26-41 | Rates stay non-negative and identities stay distinct and below the counter. No identity changes. |
| ServiceRoute.UpsertKeepsNamesDistinct | src/app/api/services/route.ts:26-41 | If every name had at most one record, that still holds after the upsert. |
| ServiceRoute.UpsertLeavesSingleRecord | src/app/api/services/route.ts:26-41 | Starting with one record per name, a successful upsert leaves exactly one record under the name, with the new rate. |
| ServiceRoute.UpsertExample | src/app/api/services/route.ts:26-41 | Plumbing at 100, then Plumbing at 150, on an empty collection leaves one Plumbing record at 150 (201, then 200). |
| Common.Falsy | src/app/api/customers/route.ts:15 | JavaScript's `!x` on a string field: absent or empty. |
| CustomerRoute.AnyFieldFalsy | src/app/api/customers/route.ts:15 | Some one of the five fields is missing or empty. |
| CustomerRoute.DocumentValid | src/app/models/customer.model.ts:17-43 | The save-time validators: every trimmed field non-empty, and the normalized email matching the pattern. |
| CustomerRoute.EmailTaken | src/app/models/customer.model.ts:40 | Some stored customer already has this email (the unique index). |
| CustomerRoute.Document | src/app/api/customers/route.ts:24-30 | The new document has the next identity, and every field is trimmed. |
| CustomerRoute.RegisterStep | src/app/api/customers/route.ts:7-50 | The answer is 201, 400 or 500. Only 201 writes, appending one customer and advancing the counter. |
| CustomerRoute.Register | src/app/api/customers/route.ts:15-34 | The handler's checks, taken in order, give exactly the specified reply and new state. |
| CustomerRoute.RegisterRejectsMissingField | src/app/api/customers/route.ts:15-20 | A missing or empty field gives 400 with no write. |
| CustomerRoute.RegisterRejectsBlankField | src/app/models/customer.model.ts:17-39 | A field made only of white space passes the presence check, is trimmed to nothing, and fails `required`: 400. |
| CustomerRoute.RegisterRejectsBadEmail | src/app/models/customer.model.ts:43 | An email whose normal form does not match the pattern gives 400 with no write. |
| CustomerRoute.RegisterRejectsInvalidDocument | src/app/api/customers/route.ts:38-43 | Any document the validators refuse gives 400, even when its email is taken. |
| CustomerRoute.RegisterRejectsDuplicateEmail | src/app/api/customers/route.ts:32-48 | A valid document whose normalized email is already stored gives 500 with no write. |
| CustomerRoute.RegisterSucceedsIff | src/app/api/customers/route.ts:15-34 | The answer is 201 exactly when the fields are present, the document is valid and the email is free. Exactly the normalized document is then appended. |
| CustomerRoute.RegisteredCustomerValid | src/app/models/customer.model.ts:15-44 | A stored customer has every field non-empty and trimmed, and its email is in normal form and matches the pattern. |
| CustomerRoute.RegisterKeepsInvariant | src/app/models/customer.model.ts:37-44 | Every stored customer stays valid. Identities and emails stay pairwise distinct. |
| CustomerRoute.RegisterSameEmailTwice | src/app/models/customer.model.ts:40-42 | A second registration whose email differs from a stored one only in case or padding gets 500. |
| RecordStore.StoreInvariant | src/app/models/customer.model.ts:15-52 | The constraints of the three collections together: the customer, service and booking invariants. |
| RecordStore.Store.Valid | src/app/models/customer.model.ts:15-52 | The store's fields satisfy the store invariant; every handler method requires and keeps it. |
| RecordStore.Store.CreateBooking | src/app/api/bookings/route.ts:8-68 | The status and the new bookings are those of `CreateBookingStep`. The store invariant and one-booking-per-day are kept, and nothing else changes. |
| RecordStore.Store.UpsertService | src/app/api/services/route.ts:5-51 | The status, the new services and the counter are those of `UpsertStep`. The invariant and one-record-per-name are kept. |
| RecordStore.Store.RegisterCustomer | src/app/api/customers/route.ts:7-50 | The status, the new customers and the counter are those of `RegisterStep`. The invariant is kept. |

## Left out

- The user interface (the form components and the home page): it only calls the handlers.
- Connecting to the database, and the test-db route: plumbing with no behaviour of its own here.
- Database failures: a find or save that fails for infrastructure reasons lands in each handler's catch and gives 500. The in-memory store never fails, so these paths are not modelled.
- Parsing of the JSON body: the request arrives already split into fields. A body that is not JSON (500) is not modelled.
- Response bodies and messages: only the status code is modelled, and the stored document stands for the body.
- Console logging.
- Concurrency: requests are handled one at a time. Two simultaneous bookings for the same day can pass the conflict check together in the source; the model cannot show that.
- Floating point: rates, hours and totals are exact reals. `RecordStore.Store.CreateBooking` therefore does not model rounding in `rate * numberOfHours`.
- Dates: `new Date`, `startOfDay` and `endOfDay` become a day number. Time zones, the time of day, and invalid dates (a CastError in the conflict query, so 500) are not modelled. Neither is a numeric timestamp 0, which is falsy.
- Identity casting: identities are numbers. A malformed ObjectId in `$in` or in the document (a CastError) is not modelled. Neither is an upper-case hexadecimal `serviceId`: `$in` casts it and finds the service, but the rate map's keys are the lower-case `toString()` of the identity, so the lookup misses and the handler answers 500.
- The `createdAt`/`updatedAt` timestamps.
- Field values of the wrong JSON type: strings are strings, and a line's fields are a number or absent. The services handler's `typeof` check is kept as `NotNumber`.
- Text.Lower: lower-casing covers ASCII letters only; other scripts' case mapping is left out.
- BookingModel.StatusField: status transitions (Completed, Cancelled) are never written by these handlers, so only the field's default and enum check are modelled.
- A NaN rate is not modelled: stored rates are numbers of at least 0.
